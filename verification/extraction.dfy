/**
 * The post-processing the receipt-extraction function applies to the
 * model's parsed JSON: field defaulting (`cleanedData`), the net/VAT/gross
 * coherence repair, and two-decimal rounding of the three amounts.
 */
module Extraction {
  import opened Common
  import opened Text
  import opened Numbers
  import opened Values
  import opened Money

  /**
   * The cleaned draft returned under `data`. Only `vendor` and the amounts
   * are coerced; every other field keeps whatever truthy JSON value the
   * model sent, or its default.
   */
  datatype Draft = Draft(
    vendor: string,
    expenseDate: JsValue,
    amountGross: real,
    taxVat: real,
    amountNet: real,
    currency: JsValue,
    categorySuggestion: JsValue,
    paymentMethodGuess: JsValue,
    projectCodeGuess: JsValue,
    notes: JsValue)

  const UnknownVendor: string := "Comercio desconocido"
  const DefaultCurrency: string := "EUR"
  const DefaultCategory: string := "Otros"
  const DefaultPaymentMethod: string := "OTHER"

  /**
   * `Number(v) || 0`: the numeric value, with NaN (and 0) giving 0; the
   * TypeError of a value without a primitive form propagates.
   */
  function Amount(v: JsValue): (r: Result<real>)
    ensures r.Thrown? <==> ConversionThrows(v)
    ensures ToNumber(v) == Ok(NaN) ==> r == Ok(0.0)
    ensures ToNumber(v).Ok? && ToNumber(v).value.Finite? ==> r == Ok(ToNumber(v).value.x)
  {
    match ToNumber(v)
    case Thrown(m) => Thrown(m)
    case Ok(n) => Ok(if n.Finite? && n.x != 0.0 then n.x else 0.0)
  }

  /** Whether one of the three amounts has no primitive form, so `Number` throws. */
  predicate AmountThrows(parsed: JsValue)
    requires !parsed.Null? && !parsed.Undefined?
  {
    || ConversionThrows(Get(parsed, "amount_gross"))
    || ConversionThrows(Get(parsed, "tax_vat"))
    || ConversionThrows(Get(parsed, "amount_net"))
  }

  /**
   * The shape every cleaned draft has: truthy values in the defaulted
   * fields, and `null` or a truthy value in the two optional ones.
   */
  predicate CleanShape(d: Draft) {
    && Truthy(d.currency) && Truthy(d.categorySuggestion) && Truthy(d.paymentMethodGuess)
    && (Truthy(d.projectCodeGuess) || d.projectCodeGuess == Null)
    && (Truthy(d.notes) || d.notes == Null)
  }

  /**
   * The object literal `cleanedData` built from the parsed model output.
   * Reading a field of `null` throws, so does `trim` on a truthy non-string
   * vendor, and so does `Number` on an amount without a primitive form; each
   * reaches the handler's catch-all.
   */
  function Clean(parsed: JsValue, today: string): (r: Result<Draft>)
    ensures r.Thrown? <==>
      parsed.Null? || parsed.Undefined? ||
      (Truthy(Get(parsed, "vendor")) && !Get(parsed, "vendor").Str?) ||
      AmountThrows(parsed)
    ensures r.Thrown? ==> r.message == TypeErrorMessage
    ensures r.Ok? ==> CleanShape(r.value)
    ensures r.Ok? && today != [] ==> Truthy(r.value.expenseDate)
  {
    if parsed.Null? || parsed.Undefined? then Thrown(TypeErrorMessage)
    else
      var vendor := Or(Get(parsed, "vendor"), Str(UnknownVendor));
      if !vendor.Str? then Thrown(TypeErrorMessage)
      else
        var gross := Amount(Get(parsed, "amount_gross"));
        var vat := Amount(Get(parsed, "tax_vat"));
        var net := Amount(Get(parsed, "amount_net"));
        if gross.Thrown? || vat.Thrown? || net.Thrown? then Thrown(TypeErrorMessage)
        else
          Ok(Draft(
            Trim(vendor.s),
            Or(Get(parsed, "expense_date"), Str(today)),
            gross.value,
            vat.value,
            net.value,
            Or(Get(parsed, "currency"), Str(DefaultCurrency)),
            Or(Get(parsed, "category_suggestion"), Str(DefaultCategory)),
            Or(Get(parsed, "payment_method_guess"), Str(DefaultPaymentMethod)),
            Or(Get(parsed, "project_code_guess"), Null),
            Or(Get(parsed, "notes"), Null)))
  }

  /**
   * Field by field: a falsy field takes its default and a truthy one passes
   * through unchanged, with no check against any enumeration; the vendor is
   * trimmed after defaulting, and the amounts are `Number(v) || 0`.
   */
  lemma CleanFields(parsed: JsValue, today: string)
    requires Clean(parsed, today).Ok?
    ensures var d, v := Clean(parsed, today).value, Get(parsed, "vendor");
      && (!Truthy(v) ==> d.vendor == UnknownVendor)
      && (Truthy(v) ==> d.vendor == Trim(v.s))
      && (Truthy(Get(parsed, "expense_date")) ==> d.expenseDate == Get(parsed, "expense_date"))
      && (!Truthy(Get(parsed, "expense_date")) ==> d.expenseDate == Str(today))
      && Ok(d.amountGross) == Amount(Get(parsed, "amount_gross"))
      && Ok(d.taxVat) == Amount(Get(parsed, "tax_vat"))
      && Ok(d.amountNet) == Amount(Get(parsed, "amount_net"))
      && (Truthy(Get(parsed, "currency")) ==> d.currency == Get(parsed, "currency"))
      && (!Truthy(Get(parsed, "currency")) ==> d.currency == Str(DefaultCurrency))
      && (Truthy(Get(parsed, "category_suggestion")) ==> d.categorySuggestion == Get(parsed, "category_suggestion"))
      && (!Truthy(Get(parsed, "category_suggestion")) ==> d.categorySuggestion == Str(DefaultCategory))
      && (Truthy(Get(parsed, "payment_method_guess")) ==> d.paymentMethodGuess == Get(parsed, "payment_method_guess"))
      && (!Truthy(Get(parsed, "payment_method_guess")) ==> d.paymentMethodGuess == Str(DefaultPaymentMethod))
      && (Truthy(Get(parsed, "project_code_guess")) ==> d.projectCodeGuess == Get(parsed, "project_code_guess"))
      && (!Truthy(Get(parsed, "project_code_guess")) ==> d.projectCodeGuess == Null)
      && (Truthy(Get(parsed, "notes")) ==> d.notes == Get(parsed, "notes"))
      && (!Truthy(Get(parsed, "notes")) ==> d.notes == Null)
  {
    UnknownVendorIsTrimmed();
  }

  /** The accounting identity net + VAT = gross, within one cent. */
  predicate Coherent(d: Draft) {
    Abs(d.amountNet + d.taxVat - d.amountGross) <= 0.01
  }

  /**
   * The financial coherence check: when net + VAT misses gross by more than
   * a cent, net is recomputed as gross - VAT. Nothing else is touched.
   */
  function Repair(d: Draft): (r: Draft)
    ensures Coherent(r)
    ensures r == d.(amountNet := r.amountNet)
    ensures Coherent(d) ==> r == d
    ensures !Coherent(d) ==> r.amountNet == d.amountGross - d.taxVat
  {
    if Abs(d.amountNet + d.taxVat - d.amountGross) > 0.01 then
      d.(amountNet := d.amountGross - d.taxVat)
    else d
  }

  /** Each amount in whole cents, as `Math.round(x * 100) / 100` leaves it. */
  predicate InCents(d: Draft) {
    IsCents(d.amountGross) && IsCents(d.taxVat) && IsCents(d.amountNet)
  }

  /** Rounds the three amounts to two decimals; the other fields are kept. */
  function RoundAmounts(d: Draft): (r: Draft)
    ensures InCents(r)
    ensures -0.005 < r.amountGross - d.amountGross <= 0.005
    ensures -0.005 < r.taxVat - d.taxVat <= 0.005
    ensures -0.005 < r.amountNet - d.amountNet <= 0.005
    ensures r == d.(amountGross := r.amountGross, taxVat := r.taxVat, amountNet := r.amountNet)
  {
    d.(amountGross := RoundCents(d.amountGross),
       taxVat := RoundCents(d.taxVat),
       amountNet := RoundCents(d.amountNet))
  }

  /** Rounding a draft whose amounts are already whole cents changes nothing. */
  lemma RoundAmountsIdempotent(d: Draft)
    ensures RoundAmounts(RoundAmounts(d)) == RoundAmounts(d)
  {
    RoundCentsIdempotent(d.amountGross);
    RoundCentsIdempotent(d.taxVat);
    RoundCentsIdempotent(d.amountNet);
  }

  /** The whole post-processing: defaults, then repair, then rounding. */
  function Normalize(parsed: JsValue, today: string): (r: Result<Draft>)
    ensures r.Thrown? <==> Clean(parsed, today).Thrown?
    ensures r.Ok? ==> InCents(r.value)
    ensures r.Ok? ==> r.value.vendor == Clean(parsed, today).value.vendor
  {
    match Clean(parsed, today)
    case Thrown(m) => Thrown(m)
    case Ok(d) => Ok(RoundAmounts(Repair(d)))
  }

  /**
   * After repair and rounding the amounts meet the identity within two
   * cents always, and within one cent whenever the repair fired.
   */
  lemma RepairThenRoundCoherence(d: Draft)
    ensures var r := RoundAmounts(Repair(d));
      && Abs(r.amountNet + r.taxVat - r.amountGross) <= 0.02
      && (!Coherent(d) ==> Coherent(r))
  {
    var p := Repair(d);
    RoundedCoherenceWithinTwoCents(p.amountNet, p.taxVat, p.amountGross);
    if !Coherent(d) {
      RoundedCoherenceWithinCent(p.taxVat, p.amountGross);
    }
  }

  /** The coherence bounds, stated of the normalized draft. */
  lemma NormalizeCoherence(parsed: JsValue, today: string)
    ensures Normalize(parsed, today).Ok? ==>
      var r := Normalize(parsed, today).value;
      && Abs(r.amountNet + r.taxVat - r.amountGross) <= 0.02
      && (!Coherent(Clean(parsed, today).value) ==> Coherent(r))
  {
    if Normalize(parsed, today).Ok? {
      RepairThenRoundCoherence(Clean(parsed, today).value);
    }
  }

  /** The draft as `JSON.stringify` would hand it back: an object of its fields. */
  function ToJson(d: Draft): (v: JsValue)
    ensures v.Obj?
  {
    Obj(map[
      "vendor" := Str(d.vendor),
      "expense_date" := d.expenseDate,
      "amount_gross" := Num(d.amountGross),
      "tax_vat" := Num(d.taxVat),
      "amount_net" := Num(d.amountNet),
      "currency" := d.currency,
      "category_suggestion" := d.categorySuggestion,
      "payment_method_guess" := d.paymentMethodGuess,
      "project_code_guess" := d.projectCodeGuess,
      "notes" := d.notes])
  }

  /** Reading each field back from the JSON form of a draft. */
  lemma ToJsonFields(d: Draft)
    ensures Get(ToJson(d), "vendor") == Str(d.vendor)
    ensures Get(ToJson(d), "expense_date") == d.expenseDate
    ensures Get(ToJson(d), "amount_gross") == Num(d.amountGross)
    ensures Get(ToJson(d), "tax_vat") == Num(d.taxVat)
    ensures Get(ToJson(d), "amount_net") == Num(d.amountNet)
    ensures Get(ToJson(d), "currency") == d.currency
    ensures Get(ToJson(d), "category_suggestion") == d.categorySuggestion
    ensures Get(ToJson(d), "payment_method_guess") == d.paymentMethodGuess
    ensures Get(ToJson(d), "project_code_guess") == d.projectCodeGuess
    ensures Get(ToJson(d), "notes") == d.notes
  {
  }

  /** The cleaned vendor is its own trim. */
  lemma CleanVendorTrimmed(parsed: JsValue, today: string)
    requires Clean(parsed, today).Ok?
    ensures Trim(Clean(parsed, today).value.vendor) == Clean(parsed, today).value.vendor
  {
    var vendor := if Truthy(Get(parsed, "vendor")) then Get(parsed, "vendor").s else UnknownVendor;
    TrimIdempotent(vendor);
  }

  lemma AmountOfNum(x: real)
    ensures Amount(Num(x)) == Ok(x)
  {
  }

  /** Cleaning the JSON form of a draft of that shape gives the draft back. */
  lemma CleanOfToJson(d: Draft, today: string)
    requires CleanShape(d) && Truthy(d.expenseDate)
    requires d.vendor != [] && Trim(d.vendor) == d.vendor
    ensures Clean(ToJson(d), today) == Ok(d)
  {
    var j := ToJson(d);
    ToJsonFields(d);
    var vendor := Or(Get(j, "vendor"), Str(UnknownVendor));
    assert vendor == Str(d.vendor);
    AmountOfNum(d.amountGross);
    AmountOfNum(d.taxVat);
    AmountOfNum(d.amountNet);
    var e := Draft(
      Trim(vendor.s),
      Or(Get(j, "expense_date"), Str(today)),
      d.amountGross,
      d.taxVat,
      d.amountNet,
      Or(Get(j, "currency"), Str(DefaultCurrency)),
      Or(Get(j, "category_suggestion"), Str(DefaultCategory)),
      Or(Get(j, "payment_method_guess"), Str(DefaultPaymentMethod)),
      Or(Get(j, "project_code_guess"), Null),
      Or(Get(j, "notes"), Null));
    assert Clean(j, today) == Ok(e);
    assert e == d;
  }

  /**
   * Normalizing an already normalized draft gives it back, provided its
   * vendor is not empty and its amounts meet the identity within a cent
   * (the two lemmas after this one show that both conditions are needed).
   */
  lemma NormalizeFixedPoint(parsed: JsValue, today: string, later: string)
    requires Normalize(parsed, today).Ok?
    requires today != []
    requires Normalize(parsed, today).value.vendor != []
    requires Coherent(Normalize(parsed, today).value)
    ensures Normalize(ToJson(Normalize(parsed, today).value), later) == Normalize(parsed, today)
  {
    var d := Normalize(parsed, today).value;
    CleanVendorTrimmed(parsed, today);
    assert CleanShape(d) && Truthy(d.expenseDate) && Trim(d.vendor) == d.vendor;
    NormalizeOfToJson(d, later);
  }

  /** A cleaned-shaped, coherent, whole-cents draft survives a second normalization. */
  lemma NormalizeOfToJson(d: Draft, later: string)
    ensures && CleanShape(d) && Truthy(d.expenseDate)
            && d.vendor != [] && Trim(d.vendor) == d.vendor
            && Coherent(d) && InCents(d)
      ==> Normalize(ToJson(d), later) == Ok(d)
  {
    if && CleanShape(d) && Truthy(d.expenseDate)
       && d.vendor != [] && Trim(d.vendor) == d.vendor
       && Coherent(d) && InCents(d)
    {
      assert Repair(d) == d;
      RoundCentsOfCents(d.amountGross);
      RoundCentsOfCents(d.taxVat);
      RoundCentsOfCents(d.amountNet);
      assert RoundAmounts(d) == d;
      CleanOfToJson(d, later);
    }
  }

  /**
   * A whitespace-only vendor is trimmed to the empty string, not replaced by
   * the placeholder: the default is applied before `trim`.
   */
  lemma BlankVendorBecomesEmpty(parsed: JsValue, today: string)
    requires parsed.Obj? && "vendor" in parsed.fields && parsed.fields["vendor"].Str?
    requires parsed.fields["vendor"].s != [] && AllSpace(parsed.fields["vendor"].s)
    ensures Normalize(parsed, today).Ok? <==> !AmountThrows(parsed)
    ensures Normalize(parsed, today).Ok? ==> Normalize(parsed, today).value.vendor == []
  {
    var v := parsed.fields["vendor"].s;
    assert Get(parsed, "vendor") == Str(v) && Truthy(Str(v));
    TrimEmptyIffAllSpace(v);
    var c := Clean(parsed, today);
    assert c.Ok? ==> c.value.vendor == Trim(v);
  }

  /**
   * A draft with an empty vendor gets the placeholder on a second pass, so
   * normalization is not idempotent on the drafts the lemma above produces.
   */
  lemma EmptyVendorRenormalized(d: Draft, later: string)
    requires d.vendor == []
    ensures Normalize(ToJson(d), later).Ok?
    ensures Normalize(ToJson(d), later).value.vendor == UnknownVendor
  {
    ToJsonFields(d);
    UnknownVendorIsTrimmed();
  }

  lemma UnknownVendorIsTrimmed()
    ensures Trim(UnknownVendor) == UnknownVendor
  {
    assert !IsJsSpace(UnknownVendor[0]) && !IsJsSpace(UnknownVendor[|UnknownVendor| - 1]);
    TrimOfTrimmed(UnknownVendor);
  }

  /**
   * Rounding alone can break the identity when the repair did not fire:
   * net 0.005 and VAT 0.005 against gross 0 are within a cent, but round to
   * 0.01 + 0.01 against 0.
   */
  lemma RoundingCanBreakCoherence(d: Draft)
    requires d.amountNet == 0.005 && d.taxVat == 0.005 && d.amountGross == 0.0
    ensures Coherent(d)
    ensures !Coherent(RoundAmounts(Repair(d)))
  {
    assert Repair(d) == d;
    assert JsRound(0.005 * 100.0) == 1;
    assert JsRound(0.0 * 100.0) == 0;
    var n := RoundAmounts(d);
    assert n.amountNet == 0.01 && n.taxVat == 0.01 && n.amountGross == 0.0;
  }
}
