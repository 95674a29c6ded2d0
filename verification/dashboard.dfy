/** The budget cards of the dashboard: how far each category's spending is into its budget. */
module Dashboard {
  import opened Numbers

  datatype Variant = Success | Warning | Danger

  /** Severity rank: success, then warning, then danger. */
  function Rank(v: Variant): nat {
    match v
    case Success => 0
    case Warning => 1
    case Danger => 2
  }

  /** `(spent / budget) * 100`. */
  function SpentPercentage(spent: real, budget: real): Number {
    Scale(Divide(spent, budget), 100.0)
  }

  /** Above 90 is danger, above 75 warning, anything else (NaN included) success. */
  function Classify(p: Number): (v: Variant)
    ensures p.Finite? ==>
      (v == Danger <==> p.x > 90.0) && (v == Warning <==> 75.0 < p.x <= 90.0)
    ensures p.PosInf? ==> v == Danger
    ensures p.NaN? || p.NegInf? ==> v == Success
  {
    if Greater(p, 90.0) then Danger
    else if Greater(p, 75.0) then Warning
    else Success
  }

  /** The variant of a budget card. */
  function BudgetVariant(spent: real, budget: real): (v: Variant)
    ensures budget > 0.0 ==>
      (v == Danger <==> spent / budget * 100.0 > 90.0)
      && (v == Warning <==> 75.0 < spent / budget * 100.0 <= 90.0)
      && (v == Success <==> spent / budget * 100.0 <= 75.0)
  {
    Classify(SpentPercentage(spent, budget))
  }

  /** The thresholds belong to the milder variant: exactly 90 is a warning and exactly 75 a success. */
  lemma ThresholdsAreInclusive()
    ensures Classify(Finite(90.0)) == Warning
    ensures Classify(Finite(75.0)) == Success
  {
  }

  /** For a fixed positive budget, spending more never lowers the severity. */
  lemma SeverityMonotone(s1: real, s2: real, budget: real)
    requires budget > 0.0 && s1 <= s2
    ensures Rank(BudgetVariant(s1, budget)) <= Rank(BudgetVariant(s2, budget))
  {
    assert s1 / budget <= s2 / budget;
  }

  /** A zero budget: any spending is danger, none is NaN and so success. */
  lemma ZeroBudget(spent: real)
    ensures spent > 0.0 ==> BudgetVariant(spent, 0.0) == Danger
    ensures spent <= 0.0 ==> BudgetVariant(spent, 0.0) == Success
  {
  }

  /** The four categories the dashboard shows. */
  lemma DisplayedBudgets()
    ensures BudgetVariant(3200.0, 4000.0) == Warning
    ensures BudgetVariant(2800.0, 3000.0) == Danger
    ensures BudgetVariant(1500.0, 2000.0) == Success
    ensures BudgetVariant(2000.0, 2500.0) == Warning
  {
  }
}
