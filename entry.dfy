/** Validation of the "add expense" form posted to the home page. */
module Entry {
  import opened Wrappers
  import opened Text
  import opened Calendar

  /** The posted form; `None` is a field missing from the request. */
  datatype ExpenseForm = ExpenseForm(amount: Option<string>, category: Option<string>,
                                     note: Option<string>, date: Option<string>)

  datatype EntryError = InvalidAmount | AmountNotPositive

  function EntryMessage(e: EntryError): string {
    match e
    case InvalidAmount => "Invalid amount"
    case AmountNotPositive => "Amount must be > 0"
  }

  /** The values of a new expense row, before it is attributed to a user. */
  datatype Draft = Draft(amount: real, category: string, note: string, createdAt: Timestamp)

  const DefaultCategory: string := "Other"

  /** The amount text: a missing field reads as "0". */
  function AmountText(form: ExpenseForm): string {
    form.amount.GetOr("0")
  }

  /** The date text: a missing field reads as empty. */
  function DateText(form: ExpenseForm): string {
    form.date.GetOr("")
  }

  /** The stored category: the submitted one without surrounding whitespace,
      or "Other" when it is missing or blank. */
  function CategoryOf(field: Option<string>): (c: string)
    ensures c != [] && !IsSpace(c[0]) && !IsSpace(c[|c| - 1])
    ensures field.Some? && !AllSpace(field.value, 0, |field.value|) ==> exists i :: SpaceAround(field.value, c, i)
    ensures field.None? || AllSpace(field.value, 0, |field.value|) ==> c == DefaultCategory
  {
    var c := Strip(field.GetOr(DefaultCategory));
    if c == [] then DefaultCategory else c
  }

  /** The decision the home page takes on a posted form. `parseFloat` is
      Python's `float()` on a string and `parseDate` is dateutil's
      `parser.parse`; `None` stands for the `ValueError` either raises. The
      amount is parsed first, then the date (the current time `now` when no
      date is given), and only then is the amount's sign checked. */
  function CheckEntry(form: ExpenseForm, now: Timestamp,
                      parseFloat: string -> Option<real>,
                      parseDate: string -> Option<Timestamp>): (r: Result<Draft, EntryError>)
    ensures r == Err(InvalidAmount) <==>
              parseFloat(AmountText(form)).None?
              || (DateText(form) != "" && parseDate(DateText(form)).None?)
    ensures r == Err(AmountNotPositive) <==>
              parseFloat(AmountText(form)).Some? && parseFloat(AmountText(form)).value <= 0.0
              && (DateText(form) == "" || parseDate(DateText(form)).Some?)
    ensures r.Ok? ==>
              && parseFloat(AmountText(form)) == Some(r.value.amount)
              && r.value.amount > 0.0
              && r.value.category == CategoryOf(form.category)
              && r.value.note == Strip(form.note.GetOr(""))
              && (if DateText(form) == "" then r.value.createdAt == now
                  else parseDate(DateText(form)) == Some(r.value.createdAt))
  {
    match parseFloat(AmountText(form))
    case None => Err(InvalidAmount)
    case Some(amount) =>
      var category := CategoryOf(form.category);
      var note := Strip(form.note.GetOr(""));
      var dateText := DateText(form);
      var createdAt := if dateText != "" then parseDate(dateText) else Some(now);
      match createdAt
      case None => Err(InvalidAmount)
      case Some(t) =>
        if amount <= 0.0 then Err(AmountNotPositive)
        else Ok(Draft(amount, category, note, t))
  }

  /** A form without an amount is refused as non-positive, since the
      missing field reads as "0", whenever no date is given or the given
      date parses. */
  lemma MissingAmountNotPositive(form: ExpenseForm, now: Timestamp,
                                 parseFloat: string -> Option<real>,
                                 parseDate: string -> Option<Timestamp>)
    requires parseFloat("0") == Some(0.0)
    requires form.amount.None?
    requires DateText(form) == "" || parseDate(DateText(form)).Some?
    ensures CheckEntry(form, now, parseFloat, parseDate) == Err(AmountNotPositive)
  {
  }

  /** A date that does not parse is reported as an invalid amount, even when
      the amount itself is well formed (positive or not). */
  lemma BadDateReportedAsInvalidAmount(form: ExpenseForm, now: Timestamp,
                                       parseFloat: string -> Option<real>,
                                       parseDate: string -> Option<Timestamp>)
    requires parseFloat(AmountText(form)).Some?
    requires form.date.Some? && form.date.value != "" && parseDate(form.date.value).None?
    ensures CheckEntry(form, now, parseFloat, parseDate) == Err(InvalidAmount)
    ensures EntryMessage(CheckEntry(form, now, parseFloat, parseDate).error) == "Invalid amount"
  {
  }
}
