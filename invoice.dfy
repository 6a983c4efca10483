/** The invoice record edited by the form: its scalar fields, the open set of
    extra keys a field handler may add, and the pure record-level operations
    (field edit, logo attach/remove, the example preset, the empty state) and
    the JavaScript `splice(start, 1)` used to delete a row. */
module Invoice {

  datatype Option<T> = None | Some(value: T)

  /** A logo file picked in the browser. Only its identity matters here: the
      form stores the file object itself and compares it by reference. */
  class LogoFile {
    constructor () { }
  }

  /** One billable row as a value: what a deep comparison of two invoices sees. */
  datatype Row = Row(description: string, quantity: real, rate: real)

  /** The invoice record. `L` is how it holds its rows: a shared array object
      for the live draft, a sequence of `Row` values for its deep value.
      `extra` holds keys written by the field handler that are not among the
      record's own fields. */
  datatype Invoice<L> = Invoice(
    invoiceNumber: string,
    fromName: string,
    imageLogo: Option<LogoFile>,
    paymentTerms: string,
    currency: string,
    toName: string,
    date: string,
    dueDate: string,
    lineItems: L,
    notes: string,
    terms: string,
    extra: map<string, string>)

  /** The record's own text-valued fields. */
  const TextFields: set<string> :=
    {"invoiceNumber", "fromName", "paymentTerms", "currency", "toName",
     "date", "dueDate", "notes", "terms"}

  /** Keys the field handler may be given: anything but the two members that
      do not hold text. */
  predicate IsTextKey(key: string) {
    key != "imageLogo" && key != "lineItems"
  }

  /** The text stored under `key`, if any: the record's own field, or an extra key. */
  function Get<L>(d: Invoice<L>, key: string): Option<string> {
    if key == "invoiceNumber" then Some(d.invoiceNumber)
    else if key == "fromName" then Some(d.fromName)
    else if key == "paymentTerms" then Some(d.paymentTerms)
    else if key == "currency" then Some(d.currency)
    else if key == "toName" then Some(d.toName)
    else if key == "date" then Some(d.date)
    else if key == "dueDate" then Some(d.dueDate)
    else if key == "notes" then Some(d.notes)
    else if key == "terms" then Some(d.terms)
    else if key in d.extra then Some(d.extra[key])
    else None
  }

  /** `{...d, [key]: value}`: the record with one text key set. */
  function SetField<L>(d: Invoice<L>, key: string, value: string): (r: Invoice<L>)
    requires IsTextKey(key)
    ensures Get(r, key) == Some(value)
    ensures forall k :: k != key ==> Get(r, k) == Get(d, k)
    ensures r.imageLogo == d.imageLogo && r.lineItems == d.lineItems
    ensures key in TextFields ==> r.extra == d.extra
  {
    if key == "invoiceNumber" then d.(invoiceNumber := value)
    else if key == "fromName" then d.(fromName := value)
    else if key == "paymentTerms" then d.(paymentTerms := value)
    else if key == "currency" then d.(currency := value)
    else if key == "toName" then d.(toName := value)
    else if key == "date" then d.(date := value)
    else if key == "dueDate" then d.(dueDate := value)
    else if key == "notes" then d.(notes := value)
    else if key == "terms" then d.(terms := value)
    else d.(extra := d.extra[key := value])
  }

  /** The record after a file-input change event: the first chosen file
      becomes the logo; an empty selection leaves the record as it was. */
  function WithChosenFiles<L>(d: Invoice<L>, files: seq<LogoFile>): (r: Invoice<L>)
    ensures files == [] ==> r == d
    ensures files != [] ==> r.imageLogo == Some(files[0])
    ensures r.(imageLogo := d.imageLogo) == d
  {
    if |files| > 0 then d.(imageLogo := Some(files[0])) else d
  }

  /** The record with its logo removed. */
  function WithoutLogo<L>(d: Invoice<L>): (r: Invoice<L>)
    ensures r.imageLogo == None
    ensures r.(imageLogo := d.imageLogo) == d
  {
    d.(imageLogo := None)
  }

  /** The initial record: every text field empty except the currency, no
      logo, no extra keys, and the given rows. */
  function Empty<L>(items: L): (r: Invoice<L>)
    ensures r.lineItems == items && r.imageLogo == None && r.extra == map[]
  {
    Invoice("", "", None, "", "USD", "", "", "", items, "", "", map[])
  }

  /** In the initial record every text key reads empty, except the currency,
      which reads "USD", and no other key is present. */
  lemma EmptyReadsBlank<L>(items: L, key: string)
    ensures Get(Empty(items), key) ==
      if key == "currency" then Some("USD") else if key in TextFields then Some("") else None
  {
  }

  /** The rows of the example invoice. */
  const ExampleRows: seq<Row> :=
    [Row("Front End React js #1", 1.0, 1.5), Row("Blockchain Integration #2", 2.0, 2.5)]

  /** The example invoice laid over `d`: every own field is replaced, only
      the extra keys of `d` survive the spread. */
  function Example<L>(d: Invoice<L>, items: L): (r: Invoice<L>)
    ensures r.extra == d.extra && r.lineItems == items && r.imageLogo == None
    ensures forall k :: k !in TextFields ==> Get(r, k) == Get(d, k)
  {
    Invoice(ExampleNumber, ExampleFrom, None, ExamplePaymentTerms, ExampleCurrency,
            ExampleTo, ExampleDate, ExampleDueDate, items, ExampleNotes, ExampleTerms, d.extra)
  }

  const ExampleNumber := "123"
  const ExampleFrom := "El Mehdi Nassiri\n Hay Mohamadi\nMaroc, Casablanca 20000"
  const ExamplePaymentTerms := "Projet à prix fixe"
  const ExampleCurrency := "MAD"
  const ExampleTo := "Ahmed taha alami\n sidi bernoussi.\nMaroc, Casablanca 20001"
  const ExampleDate := "2020-06-06"
  const ExampleDueDate := "2020-06-26"
  const ExampleNotes := "ce projet a fait par moi el mehdi nassiri en tant que Freelancer"
  const ExampleTerms := "Le paiement doit être effectué via PayPal, Cih bank"

  /** The preset does not depend on what the draft held in its own fields:
      two drafts with the same extra keys give the same example. */
  lemma ExampleIgnoresOwnFields<L>(d: Invoice<L>, e: Invoice<L>, items: L)
    requires d.extra == e.extra
    ensures Example(d, items) == Example(e, items)
  {
  }

  /** Where `splice(start, 1)` starts on an array of length `len`: a negative
      start counts back from the end, and both ends are clamped. */
  function SpliceStart(len: nat, start: int): (k: nat)
    ensures k <= len
    ensures 0 <= start <= len ==> k == start
    ensures start >= len ==> k == len
    ensures start < 0 && len + start >= 0 ==> k == len + start
    ensures len + start < 0 ==> k == 0
  {
    if start < 0 then (if len + start < 0 then 0 else len + start)
    else if start > len then len
    else start
  }

  /** The sequence after `splice(start, 1)`. */
  function SpliceOne<T>(s: seq<T>, start: int): (r: seq<T>)
    ensures SpliceStart(|s|, start) == |s| ==> r == s
    ensures SpliceStart(|s|, start) < |s| ==> |r| == |s| - 1
    ensures var k := SpliceStart(|s|, start);
      k < |s| ==> r[..k] == s[..k] && forall j :: k < j < |s| ==> r[j - 1] == s[j]
    ensures multiset(r) <= multiset(s)
  {
    var k := SpliceStart(|s|, start);
    if k < |s| then
      assert s == s[..k] + [s[k]] + s[k + 1..];
      s[..k] + s[k + 1..]
    else s
  }

  /** Deleting at index 0 drops the first element. */
  lemma SpliceFirst<T>(s: seq<T>)
    requires |s| > 0
    ensures SpliceOne(s, 0) == s[1..]
  {
  }
}
