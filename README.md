# Invoice generator: draft editing and submission history

This project models the state logic of the invoice generator's single React
component (`src/App.js`). The component keeps two pieces of state:

- the invoice being edited (`editedInvoice`), which starts as the module-level
  `emptyState` record;
- a newest-first list of submitted invoices (`historyStates`), capped at 25
  entries.

The model covers every change handler of the form:

- a text field is set;
- a logo is attached or removed;
- one field of a line item is edited;
- a line item is deleted or a blank one is appended;
- the example preset is loaded;
- the form is cleared;
- the draft is submitted to the history;
- a history entry is loaded back.

The records that the handlers build by spreading (`{...editedInvoice, ...}`)
are values: the datatype `Invoice.Invoice<L>`. The line items are not. The row
handlers assign `lineItem.description`, `lineItem.quantity` and
`lineItem.rate` in place. Delete and add call `splice` and `push` on the shared
`lineItems` array. So each row is a heap object (`App.LineItem`), and each
array is a heap object holding a sequence of rows (`App.LineItemArray`).

A record for the live form is `Invoice<LineItemArray>`. Its deep value, which
is what the `dequal` comparison used by submit sees, is
`Invoice<seq<Row>>`, computed by `App.ValueOf`. The component is the class
`App.InvoiceApp`. It has:

- the constant `emptyState`;
- the fields `draft` and `history`;
- one method per handler.

Each method's `modifies` clause names exactly the objects the handler
writes. Its `ensures` clauses state which stored invoices an edit can reach
through sharing, and which it cannot.

The field handler is modelled as an open key map. The record's nine text
fields are datatype fields. Any other key goes into a map `extra`, because
`{...d, [key]: value}` adds a new property. The Terms textarea is bound to
the key `'Conditions'` (src/App.js:315), not `'terms'`. Under this choice,
text typed there lands in a stray `Conditions` key and `terms` never changes.
Module `Controls` states this and proves it, together with the intended
binding.

The history log is modelled in module `HistoryLog` as a function on
sequences (`Admit`). Two lemmas use it:

- submitting the same draft twice adds it once;
- 26 submissions with no immediate repeat keep the newest 25, newest first.

Module `Scenarios` holds short sequences of user actions applied to the
form. They show the documented outcome and the three aliasing defects listed
under Findings.

## Model

| member | source | states |
|---|---|---|
| Invoice.SetField | src/App.js:44-52 | The named key reads the new text. Every other key reads as before. The logo and the rows are untouched. A key that is one of the record's own fields leaves the extra keys as they were. |
| Invoice.WithChosenFiles | src/App.js:54-61 | An empty file selection leaves the record equal to the old one. Otherwise the logo becomes the first chosen file. Either way, nothing but the logo changes. |
| Invoice.WithoutLogo | src/App.js:153-156 | The logo is null and nothing else in the record changes. |
| Invoice.Empty | src/App.js:23-35 | The initial record holds the given rows, no logo and no extra keys. |
| Invoice.EmptyReadsBlank | src/App.js:23-35 | In the initial record every text key reads empty except the currency, which reads "USD". No other key is present. |
| Invoice.Example | src/App.js:115-141 | The preset record holds the given rows and no logo. Only the keys that are not own fields of the record survive from the old draft. |
| Invoice.ExampleIgnoresOwnFields | src/App.js:115-141 | The preset result does not depend on the old draft's own fields, only on its extra keys. |
| Invoice.SpliceStart | src/App.js:95 | The position where `splice(index, 1)` starts is always within the array. A non-negative index is clamped at the length, so an index past the end deletes nothing. A negative index counts back from the end and is clamped at 0. |
| Invoice.SpliceOne | src/App.js:93-100 | When the start is within the array: the length drops by one, elements before the start are unchanged, and every later element moves down one place. When the start is past the end, the sequence is unchanged. No element is invented. |
| Invoice.SpliceFirst | src/App.js:93-100 | Deleting at index 0 drops exactly the first row. |
| HistoryLog.Admit | src/App.js:159-164 | The head is the submitted entry. The log is unchanged if and only if the old head equals the entry. Otherwise the tail is the first min(24, n) old entries in order. A log of at most 25 entries stays within 25. |
| HistoryLog.AdmitTwice | src/App.js:161-162 | Submitting the same entry twice in a row gives the same log as submitting it once. |
| HistoryLog.AdmitAllKeepsNewest | src/App.js:161-162 | Submitting a sequence of entries with no immediate repeat leaves the first 25 of (those entries newest-first, then the old log). |
| HistoryLog.TwentySixSubmissions | src/App.js:162 | 26 submissions with no immediate repeat into an empty log leave exactly 25 entries: the last 25 submitted, newest first. The oldest is dropped. |
| App.InvoiceApp.constructor | src/App.js:38-42 | At mount the draft is the initial record itself and its value is the empty invoice with no rows. The history is what storage held. |
| App.InvoiceApp.OnFieldValueChange | src/App.js:44-52 | The draft becomes the record with that one key set. The history is the same list. |
| App.InvoiceApp.OnImageLogoChange | src/App.js:54-61 | The draft becomes the record with the chosen logo, or stays as it was when nothing was chosen. The history is unchanged. |
| App.InvoiceApp.OnRemoveImageClick | src/App.js:147-157 | The draft loses its logo and nothing else. The history is unchanged. |
| App.InvoiceApp.OnLineItemDescriptionChange | src/App.js:63-71 | For an index in range, only that row's description changes. The length and the other rows are kept. An index out of range fails and changes nothing. Only the edited row object is written. Every history entry that does not share that row keeps its value. |
| App.InvoiceApp.OnLineItemQuantityChange | src/App.js:73-81 | As for the description, for the quantity. |
| App.InvoiceApp.OnLineItemRateChange | src/App.js:83-91 | As for the description, for the rate. |
| App.InvoiceApp.OnLineItemDeleteClick | src/App.js:93-100 | The shared array and the draft's rows become their `splice(index, 1)`. History entries holding another array keep their values. |
| App.InvoiceApp.OnLineItemAddClick | src/App.js:102-113 | The rows gain one blank row (empty description, quantity 0, rate 0) at the end. Earlier row objects are kept and the new one is fresh. History entries holding another array keep their values. |
| App.InvoiceApp.OnExampleLinkClick | src/App.js:115-141 | The draft's value becomes the example preset over the old value, with the two example rows. Its array and rows are new objects. The history is unchanged. |
| App.InvoiceApp.OnClearFormClick | src/App.js:143-145 | The draft becomes the initial record object itself. Its value is the empty invoice with whatever rows that record's array now holds. The history is unchanged. |
| App.InvoiceApp.OnSubmitClick | src/App.js:159-164 | The history is unchanged when the draft's deep value equals the head's. Otherwise it is the draft record itself followed by the first 24 old entries. The list of deep values is `Admit` of the old values with the draft's value. |
| App.InvoiceApp.OnHistoryStateClick | src/App.js:166-168 | The draft becomes that history record itself. The history is unchanged. |
| App.InvoiceApp.ClearFormIntended | src/App.js:143-145 | Clearing gives a draft whose value is the empty invoice with no rows, whatever happened before. Its array is new. |
| App.InvoiceApp.SubmitIntended | src/App.js:159-164 | The deep values of the history are `Admit` of the old values with the draft's value. An admitted entry is a copy whose array and rows are all new objects. |
| App.InvoiceApp.LoadIntended | src/App.js:166-168 | The draft gets the entry's value in a new array of new rows. The history is unchanged. |
| App.CopyDraft | src/App.js:162 | The deep copy has the same value as the original, and all of its rows are new and distinct objects. |
| Scenarios.SubmitTwoEditedRows | src/App.js:63-113 | Two added rows, the first described "Design" and the second rated 50, then submitted: the head holds exactly those two rows. |
| Scenarios.DeleteFirstRowOnce | src/App.js:93-100 | Deleting row 0 of A, B, C leaves B, C. |
| Scenarios.DeleteFirstRowTwice | src/App.js:93-100 | Deleting row 0 twice from A, B, C leaves C. |
| Scenarios.ClearAfterAddKeepsRow | src/App.js:32 | As written: a row added before clearing is still there after clearing, so the cleared draft is not the empty invoice. |
| Scenarios.ClearAfterAddIntended | src/App.js:143-145 | With the corrected clear, the same actions give the empty invoice. |
| Scenarios.EditAfterSubmitRewritesEntry | src/App.js:162 | As written: a row edited after submitting rewrites the stored entry, and the next submit adds nothing. |
| Scenarios.EditAfterSubmitIntended | src/App.js:159-164 | With the corrected submit, the stored entry keeps its blank row and the edited draft becomes a second entry. |
| Scenarios.EditAfterLoadRewritesEntry | src/App.js:167 | As written: editing a row of a draft loaded from the history rewrites that history entry. |
| Scenarios.EditAfterLoadIntended | src/App.js:166-168 | With the corrected load, the entry keeps its row and only the draft changes. |
| Controls.ShownKey | src/App.js:182-317 | Every text control's displayed value is bound to one of the record's own text fields. |
| Controls.WrittenKey | src/App.js:190-315 | Every control's handler writes a text key. The key it writes is the one it displays for every control except the Terms textarea. |
| Controls.PresetMovesCurrencyUnderSelect | src/App.js:272-290 | The example preset sets the currency to "MAD", changing the value under the currency select whenever it held another code, while that select is the one control not bound through `value`. |
| Controls.IntendedKey | src/App.js:315 | The intended binding writes one of the record's own text fields. |
| Controls.TermsInputMissesTerms | src/App.js:309-316 | As written: typing into Terms leaves `terms` as it was, stores the text under `Conditions`, and the example preset keeps that stray key. |
| Controls.IntendedControlsEcho | src/App.js:182-317 | With the intended binding, every control then displays what was typed into it, and no extra key appears. |

## Left out

- The PDF export (`saveInvoicePDF`, src/App.js:160) is not part of this model. The model assumes the export returns normally. If `saveInvoicePDF` throws, the source leaves the history unchanged; that path is not modelled.
- Persistence (`useLocalStorage`, src/App.js:19, 39-42) is not part of this model. The stored history is the constructor's argument. Writing back, the JSON round trip (which turns a logo file into `{}`) and the recovery from a malformed payload are not modelled. The model assumes the hook keeps in component state the very array passed to its setter, so the history holds the draft record itself after a submit (src/App.js:162); useLocalStorage.ts is not part of this model.
- Clearing the DOM file input in the remove-image handler (src/App.js:149-150) is a side effect on the page and is not modelled.
- Rendering and layout are not modelled (src/App.js:170-340). The only exception is which key each text control is bound to for display and for writing.
- Controls.ShownKey: gives the key each control's displayed value is bound to. The currency select is bound through `defaultValue` (src/App.js:280), not `value`, so it shows `currency` only when it is mounted. After the example preset, a clear or a history load it keeps showing the code last chosen while `currency` may hold another. `Controls.Controlled` marks it as the one uncontrolled control; what an uncontrolled control shows after a re-render is not modelled.
- The currency code table (src/App.js:11, 21) is external data and is not modelled; any currency string is accepted.
- `dequal` internals (src/App.js:12): deep equality is Dafny equality on the record's value. The logo file is an opaque object compared by identity, whereas the library compares a file's enumerable properties.
- Quantities and rates are exact reals. No arithmetic is done on them here, so JavaScript number behaviour (NaN, rounding) is not modelled.
- App.InvoiceApp.OnLineItemDescriptionChange: an out-of-range index makes the handler throw a TypeError before any state changes. The model returns `ok == false` with nothing changed; the exception itself is not modelled. The same holds for OnLineItemQuantityChange and OnLineItemRateChange.
- App.InvoiceApp.OnFieldValueChange: requires a key other than `imageLogo` and `lineItems`. No control passes those two keys, and a string stored under them is outside this model.
- React's batching of state updates and re-rendering is not modelled. Each handler takes effect at once, on the state it read.
- The model follows the code. An unknown field key is stored as a stray key. An out-of-range delete is clamped or ignored by `splice`. Submitted and loaded records share their rows with the draft; the sharing is shown under Findings.

## Findings

| source | as written | input that shows it | evidently intended | confidence | as-written member | corrected member |
|---|---|---|---|---|---|---|
| src/App.js:32, 103-108, 143-145 | `emptyState.lineItems` is a single array; add pushes onto it while the draft is the initial record, and clear restores that same record | add a row on a fresh form, load the example, clear: one blank row remains | clearing always yields the empty invoice with no rows | high, not executed | Scenarios.ClearAfterAddKeepsRow | App.InvoiceApp.ClearFormIntended |
| src/App.js:162 | the draft record itself is stored, so its array and rows are shared with the history | add a row, submit, describe the row "Design", submit: the stored entry now reads "Design" and the second submit adds nothing | a history entry is a snapshot that later edits do not change | medium, not executed; assumes useLocalStorage keeps the array passed to its setter as the in-memory history | Scenarios.EditAfterSubmitRewritesEntry | App.InvoiceApp.SubmitIntended |
| src/App.js:167 | loading an entry makes the draft that very record, so row edits write into the history | load an entry with one row and describe the row "Design": the entry now reads "Design" | loading leaves the stored entry unchanged | high, not executed | Scenarios.EditAfterLoadRewritesEntry | App.InvoiceApp.LoadIntended |
| src/App.js:315 | the Terms textarea is bound to the key `'Conditions'` | type any text into Terms: `terms` keeps its old value and a stray `Conditions` key holds the text | the Terms textarea writes `terms` | high, not executed | Controls.TermsInputMissesTerms | Controls.IntendedControlsEcho |
