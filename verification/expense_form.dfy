/**
 * The expense entry form: its own schema (distinct from the shared expense
 * schema), the default values it starts from, the coercion of the amount
 * field, when the submit button is enabled, and what a submission does.
 */
module ExpenseForm {
  import opened Common
  import opened Text
  import opened Numbers
  import opened Ui
  import opened Validations

  /** The values the form holds. */
  datatype FormData = FormData(
    description: string,
    amount: real,
    category: string,
    date: string,
    notes: Option<string>)

  /** `Partial<ExpenseFormData>`: the fields an edit starts from. */
  datatype InitialData = InitialData(
    description: Option<string>,
    amount: Option<real>,
    category: Option<string>,
    date: Option<string>,
    notes: Option<string>)

  const DescriptionTooShort: string := "La descripción debe tener al menos 3 caracteres"
  const AmountTooSmall: string := "El importe debe ser mayor a 0"
  const NoCategory: string := "Selecciona una categoría"
  const NoDate: string := "Selecciona una fecha"

  /** The form's schema; the notes never fail. */
  function FormIssues(d: FormData): (r: seq<Issue>)
    ensures r == [] <==> |d.description| >= 3 && d.amount >= 0.01 && d.category != [] && d.date != []
  {
    MinLength(d.description, 3, "description", DescriptionTooShort)
    + Check(d.amount >= 0.01, "amount", AmountTooSmall)
    + MinLength(d.category, 1, "category", NoCategory)
    + MinLength(d.date, 1, "date", NoDate)
  }

  /** `x || fallback` for an optional string: the empty string is falsy. */
  function TextOr(x: Option<string>, fallback: string): (r: string)
    ensures x.Some? && x.value != [] ==> r == x.value
    ensures x.None? || x.value == [] ==> r == fallback
  {
    if x.Some? && x.value != [] then x.value else fallback
  }

  /** `x || 0` for an optional amount: zero is falsy. */
  function AmountOr(x: Option<real>): (r: real)
    ensures x.Some? ==> r == x.value
    ensures x.None? ==> r == 0.0
  {
    if x.Some? && x.value != 0.0 then x.value else 0.0
  }

  /** The default values: each field from the initial data when truthy, and today's date otherwise for the date. */
  function Defaults(initial: Option<InitialData>, today: string): (d: FormData)
    ensures initial.None? ==> d == FormData("", 0.0, "", today, Some(""))
    ensures d.notes.Some?
    ensures today != [] ==> d.date != []
  {
    match initial
    case None => FormData("", 0.0, "", today, Some(""))
    case Some(i) =>
      FormData(TextOr(i.description, ""), AmountOr(i.amount), TextOr(i.category, ""),
               TextOr(i.date, today), Some(TextOr(i.notes, "")))
  }

  /** A blank form fails on the description, the amount and the category, in that order. */
  lemma BlankFormIssues(today: string)
    requires today != []
    ensures FormIssues(Defaults(None, today)) ==
      [Issue("description", DescriptionTooShort), Issue("amount", AmountTooSmall), Issue("category", NoCategory)]
  {
  }

  /** The initial data an edit of `d` passes in. */
  function ToInitial(d: FormData): InitialData {
    InitialData(Some(d.description), Some(d.amount), Some(d.category), Some(d.date), d.notes)
  }

  /** Editing a valid expense starts from exactly its values (notes present). */
  lemma DefaultsOfValidEdit(d: FormData, today: string)
    requires FormIssues(d) == [] && d.notes.Some?
    ensures Defaults(Some(ToInitial(d)), today) == d
    ensures FormIssues(Defaults(Some(ToInitial(d)), today)) == []
  {
    assert d.description != [];
  }

  /** The amount field's change handler: `parseFloat(value) || 0`. */
  function CoerceAmount(text: string): (a: real)
    ensures ParseFloat(text).Finite? ==> a == ParseFloat(text).x
    ensures ParseFloat(text).NaN? ==> a == 0.0
  {
    match ParseFloat(text)
    case Finite(x) => if x != 0.0 then x else 0.0
    case _ => 0.0
  }

  /** Typing the decimal rendering of a whole number stores that number. */
  lemma CoerceAmountOfShowNat(n: nat)
    ensures CoerceAmount(ShowNat(n)) == n as real
  {
    StringToNumberOfShowNat(n);
  }

  /**
   * A field that holds no number (empty, or starting with neither a digit, a
   * sign nor a point) stores 0, which the schema rejects.
   */
  lemma NonNumericAmountRejected(text: string, d: FormData)
    requires var t := TrimStart(text); t == [] || (!IsDigit(t[0]) && !IsSign(t[0]) && t[0] != '.')
    ensures CoerceAmount(text) == 0.0
    ensures FormIssues(d.(amount := CoerceAmount(text))) != []
  {
    NoLiteral(TrimStart(text));
  }

  /** The submit button: disabled while saving or while the values fail the schema. */
  function SubmitDisabled(isLoading: bool, d: FormData): (disabled: bool)
    ensures !disabled <==> !isLoading && |d.description| >= 3 && d.amount >= 0.01 && d.category != [] && d.date != []
  {
    isLoading || FormIssues(d) != []
  }

  /** After a submission: the toast shown and the values the form then holds. */
  datatype Submitted = Submitted(toast: Toast, values: FormData)

  /** `handleSubmit`: on success a confirmation and a reset to the defaults, on failure an error and the values kept. */
  function HandleSubmit(saved: bool, values: FormData, defaults: FormData): (s: Submitted)
    ensures s.toast.destructive <==> !saved
    ensures saved ==> s.values == defaults
    ensures !saved ==> s.values == values
  {
    if saved then Submitted(Toast("Gasto registrado", "El gasto se ha guardado correctamente", false), defaults)
    else Submitted(Toast("Error", "No se pudo guardar el gasto", true), values)
  }

  /**
   * Saving a new expense resets the form to the blank defaults, which fail
   * the schema, so the button is disabled again until the next entry.
   */
  lemma SavedNewExpenseResets(values: FormData, today: string)
    ensures HandleSubmit(true, values, Defaults(None, today)).values == Defaults(None, today)
    ensures SubmitDisabled(false, HandleSubmit(true, values, Defaults(None, today)).values)
    ensures !HandleSubmit(true, values, Defaults(None, today)).toast.destructive
  {
    assert |Defaults(None, today).description| < 3;
  }
}
