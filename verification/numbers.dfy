/**
 * JavaScript numbers over exact reals: the finite values plus the three
 * special values, string-to-number conversion (`Number(s)` and
 * `parseFloat(s)`) for decimal literals, and the arithmetic the UI uses.
 * Floating-point rounding is not modelled: a finite number is a real.
 */
module Numbers {
  import opened Common
  import opened Text

  datatype Number = Finite(x: real) | PosInf | NegInf | NaN

  /** Number of consecutive decimal digits of `s` starting at index `i`. */
  function DigitRun(s: string, i: nat): (n: nat)
    requires i <= |s|
    ensures i + n <= |s|
    ensures AllDigits(s[i..i + n])
    ensures i + n == |s| || !IsDigit(s[i + n])
    decreases |s| - i
  {
    if i < |s| && IsDigit(s[i]) then
      var n := DigitRun(s, i + 1);
      assert s[i..i + 1 + n] == [s[i]] + s[i + 1..i + 1 + n];
      1 + n
    else 0
  }

  /** The natural number a string of decimal digits denotes. */
  function DigitsValue(ds: string): nat
    requires AllDigits(ds)
  {
    if ds == [] then 0
    else DigitsValue(ds[..|ds| - 1]) * 10 + (ds[|ds| - 1] as int - '0' as int)
  }

  /** `m` times 10 raised to the integer power `k`. */
  function ShiftDecimal(m: real, k: int): (r: real)
    ensures m > 0.0 ==> r > 0.0
    ensures m == 0.0 ==> r == 0.0
    decreases if k >= 0 then k else -k
  {
    if k == 0 then m
    else if k > 0 then ShiftDecimal(m * 10.0, k - 1)
    else ShiftDecimal(m / 10.0, k + 1)
  }

  /**
   * The pieces of a decimal literal `[+-]? digits [. digits] [(e|E) [+-]? digits]`
   * found at the start of a string, and how many characters it spans.
   */
  datatype Literal = Literal(
    negative: bool,
    intDigits: string,
    fracDigits: string,
    expNegative: bool,
    expDigits: string,
    length: nat)
  {
    predicate WellFormed() {
      && AllDigits(intDigits) && AllDigits(fracDigits) && AllDigits(expDigits)
      && (|intDigits| > 0 || |fracDigits| > 0)
    }

    function Value(): real
      requires WellFormed()
    {
      var mantissa := DigitsValue(intDigits) as real + ShiftDecimal(DigitsValue(fracDigits) as real, -|fracDigits|);
      var exponent: int := if expNegative then -(DigitsValue(expDigits) as int) else DigitsValue(expDigits);
      var magnitude := ShiftDecimal(mantissa, exponent);
      if negative then -magnitude else magnitude
    }
  }

  predicate IsSign(c: char) {
    c == '+' || c == '-'
  }

  /** The digits `s[i..i + n]` at `i`, with `n` as long as possible. */
  function DigitsAt(s: string, i: nat): (ds: string)
    requires i <= |s|
    ensures AllDigits(ds) && i + |ds| <= |s| && ds == s[i..i + |ds|]
    ensures i + |ds| == |s| || !IsDigit(s[i + |ds|])
  {
    s[i..i + DigitRun(s, i)]
  }

  /** The exponent part `(e|E) [+-]? digits` at index `i`, if one is there. */
  function ScanExponent(s: string, i: nat): (r: Option<(bool, string, nat)>)
    requires i <= |s|
    ensures r.Some? ==> AllDigits(r.value.1) && |r.value.1| > 0 && i < r.value.2 <= |s|
  {
    if i < |s| && (s[i] == 'e' || s[i] == 'E') then
      var e := if i + 1 < |s| && IsSign(s[i + 1]) then 1 else 0;
      var ds := DigitsAt(s, i + 1 + e);
      if |ds| > 0 then Some((e == 1 && s[i + 1] == '-', ds, i + 1 + e + |ds|)) else None
    else None
  }

  /**
   * The mantissa `[+-]? digits [. digits]` at the start of `s`: whether it
   * is negative, its integer and fraction digits, and where it ends.
   */
  function ScanMantissa(s: string): (r: (bool, string, string, nat))
    ensures AllDigits(r.1) && AllDigits(r.2) && |r.1| + |r.2| <= r.3 <= |s|
  {
    var k := if |s| > 0 && IsSign(s[0]) then 1 else 0;
    var intDigits := DigitsAt(s, k);
    var j := k + |intDigits|;
    var dot := j < |s| && s[j] == '.';
    var fracDigits := if dot then DigitsAt(s, j + 1) else [];
    (k == 1 && s[0] == '-', intDigits, fracDigits, if dot then j + 1 + |fracDigits| else j)
  }

  /**
   * The longest prefix of `s` that is a decimal literal (ECMAScript's
   * StrDecimalLiteral without `Infinity`), if any.
   */
  function ScanLiteral(s: string): (r: Option<Literal>)
    ensures r.Some? ==> r.value.WellFormed() && 0 < r.value.length <= |s|
  {
    var (negative, intDigits, fracDigits, mantEnd) := ScanMantissa(s);
    if |intDigits| == 0 && |fracDigits| == 0 then None
    else
      match ScanExponent(s, mantEnd)
      case Some((expNegative, expDigits, end)) =>
        Some(Literal(negative, intDigits, fracDigits, expNegative, expDigits, end))
      case None =>
        Some(Literal(negative, intDigits, fracDigits, false, [], mantEnd))
  }

  /**
   * Where a left-to-right reading of `[+-]? (d+ (. d*)? | . d+) ([eE] [+-]? d+)?`
   * stands after a prefix of the text: a recognizer of ECMAScript's
   * StrDecimalLiteral without `Infinity`, written from the grammar and
   * independent of `ScanLiteral`. `Stuck` means no extension is a literal.
   */
  datatype LexState =
    | AtStart | AfterSign | InInt | AfterIntPoint | AfterLonePoint | InFrac
    | AfterExpMark | AfterExpSign | InExp | Stuck

  predicate IsExpMark(c: char) {
    c == 'e' || c == 'E'
  }

  function Step(q: LexState, c: char): LexState {
    match q
    case AtStart =>
      if IsSign(c) then AfterSign else if IsDigit(c) then InInt else if c == '.' then AfterLonePoint else Stuck
    case AfterSign => if IsDigit(c) then InInt else if c == '.' then AfterLonePoint else Stuck
    case InInt =>
      if IsDigit(c) then InInt else if c == '.' then AfterIntPoint else if IsExpMark(c) then AfterExpMark else Stuck
    case AfterIntPoint => if IsDigit(c) then InFrac else if IsExpMark(c) then AfterExpMark else Stuck
    case AfterLonePoint => if IsDigit(c) then InFrac else Stuck
    case InFrac => if IsDigit(c) then InFrac else if IsExpMark(c) then AfterExpMark else Stuck
    case AfterExpMark => if IsSign(c) then AfterExpSign else if IsDigit(c) then InExp else Stuck
    case AfterExpSign => if IsDigit(c) then InExp else Stuck
    case InExp => if IsDigit(c) then InExp else Stuck
    case Stuck => Stuck
  }

  /** The states in which the text read so far is a whole literal. */
  predicate Accepting(q: LexState) {
    q == InInt || q == AfterIntPoint || q == InFrac || q == InExp
  }

  /** Where the reading stands after the first `k` characters of `s`. */
  function StateAt(s: string, k: nat): LexState
    requires k <= |s|
  {
    if k == 0 then AtStart else Step(StateAt(s, k - 1), s[k - 1])
  }

  /** `t` is one whole decimal literal. */
  predicate IsDecimalLiteral(t: string) {
    Accepting(StateAt(t, |t|))
  }

  /**
   * What the reading has collected: the two signs and the values of the
   * integer, fraction and exponent digit groups, from which section
   * 7.1.4.1.1 of ECMA-262 defines a literal's mathematical value.
   */
  datatype Collected = Collected(
    negative: bool,
    intValue: int,
    fracValue: int,
    fracCount: int,
    expNegative: bool,
    expValue: int)

  const NothingCollected: Collected := Collected(false, 0, 0, 0, false, 0)

  /** Takes in the character `c` that moved the reading into state `q`. */
  function Collect(v: Collected, q: LexState, c: char): Collected {
    var d := if IsDigit(c) then c as int - '0' as int else 0;
    Collected(
      if q == AfterSign then c == '-' else v.negative,
      if q == InInt then v.intValue * 10 + d else v.intValue,
      if q == InFrac then v.fracValue * 10 + d else v.fracValue,
      if q == InFrac then v.fracCount + 1 else v.fracCount,
      if q == AfterExpSign then c == '-' else v.expNegative,
      if q == InExp then v.expValue * 10 + d else v.expValue)
  }

  /** What the reading has collected from the first `k` characters of `s`. */
  function CollectedAt(s: string, k: nat): Collected
    requires k <= |s|
  {
    if k == 0 then NothingCollected else Collect(CollectedAt(s, k - 1), StateAt(s, k), s[k - 1])
  }

  /**
   * The value of what was collected: integer part plus fraction digits over
   * ten to their count, times ten to the signed exponent, negated after a
   * minus sign.
   */
  function CollectedValue(v: Collected): real {
    var mantissa := v.intValue as real + ShiftDecimal(v.fracValue as real, -v.fracCount);
    var exponent := if v.expNegative then -v.expValue else v.expValue;
    var magnitude := ShiftDecimal(mantissa, exponent);
    if v.negative then -magnitude else magnitude
  }

  /** The mathematical value of a literal. */
  function LiteralValue(t: string): real {
    CollectedValue(CollectedAt(t, |t|))
  }

  /** `k` is the length of the longest prefix of `t` that is a literal. */
  predicate LongestLiteralPrefix(t: string, k: nat) {
    && k <= |t| && IsDecimalLiteral(t[..k])
    && forall j :: k < j <= |t| ==> !IsDecimalLiteral(t[..j])
  }

  /**
   * `Number(s)`: surrounding whitespace is ignored, the empty string is 0,
   * and anything but one whole decimal literal is NaN.
   */
  function StringToNumber(s: string): (r: Number)
    ensures !r.PosInf? && !r.NegInf?
    ensures Trim(s) == [] ==> r == Finite(0.0)
    ensures Trim(s) != [] ==> (r.Finite? <==> IsDecimalLiteral(Trim(s)))
    ensures Trim(s) != [] && r.Finite? ==> r.x == LiteralValue(Trim(s))
  {
    var t := Trim(s);
    ScanLiteralIsLongestLiteral(t);
    assert t[..|t|] == t;
    if t == [] then Finite(0.0)
    else
      match ScanLiteral(t)
      case Some(lit) => if lit.length == |t| then Finite(lit.Value()) else NaN
      case None => NaN
  }

  /**
   * `parseFloat(s)`: leading whitespace is skipped and the longest decimal
   * literal found there is the value; without one the result is NaN.
   */
  function ParseFloat(s: string): (r: Number)
    ensures !r.PosInf? && !r.NegInf?
    ensures r.Finite? <==> exists k :: 0 < k <= |TrimStart(s)| && IsDecimalLiteral(TrimStart(s)[..k])
    ensures forall k: nat :: LongestLiteralPrefix(TrimStart(s), k) ==> r == Finite(LiteralValue(TrimStart(s)[..k]))
    ensures r.Finite? ==> exists k: nat :: LongestLiteralPrefix(TrimStart(s), k)
  {
    var t := TrimStart(s);
    ScanLiteralIsLongestLiteral(t);
    match ScanLiteral(t)
    case Some(lit) => Finite(lit.Value())
    case None => NaN
  }

  lemma {:induction false} DigitsValueOfShowNat(n: nat)
    ensures DigitsValue(ShowNat(n)) == n
  {
    var s := ShowNat(n);
    if n >= 10 {
      DigitsValueOfShowNat(n / 10);
      assert s[..|s| - 1] == ShowNat(n / 10);
    }
  }

  lemma DigitRunOfDigits(s: string)
    requires AllDigits(s)
    ensures DigitRun(s, 0) == |s|
  {
  }

  /** A string that does not start with a digit, a sign or a point holds no literal. */
  lemma NoLiteral(s: string)
    requires s == [] || (!IsDigit(s[0]) && !IsSign(s[0]) && s[0] != '.')
    ensures ScanLiteral(s).None?
  {
  }

  /** Reading back the decimal rendering of a natural number gives the number. */
  lemma StringToNumberOfShowNat(n: nat)
    ensures StringToNumber(ShowNat(n)) == Finite(n as real)
    ensures ParseFloat(ShowNat(n)) == Finite(n as real)
  {
    hide StateAt, CollectedAt, IsDecimalLiteral, LiteralValue, LongestLiteralPrefix, ScanLiteral;
    var s := ShowNat(n);
    assert !IsJsSpace(s[0]) && !IsJsSpace(s[|s| - 1]);
    TrimOfTrimmed(s);
    assert TrimStart(s) == s;
    ScanOfDigits(s);
    DigitsValueOfShowNat(n);
  }

  /** A run of digits alone is one literal: an integer with no fraction and no exponent. */
  lemma ScanOfDigits(s: string)
    requires |s| > 0 && AllDigits(s)
    ensures ScanLiteral(s) == Some(Literal(false, s, [], false, [], |s|))
  {
    DigitRunOfDigits(s);
    assert DigitsAt(s, 0) == s;
  }

  /** An all-whitespace string (the empty one included) converts to 0. */
  lemma StringToNumberOfSpaces(s: string)
    requires AllSpace(s)
    ensures StringToNumber(s) == Finite(0.0)
  {
    TrimEmptyIffAllSpace(s);
  }

  /** `parseFloat` finds no number in an all-whitespace string. */
  lemma ParseFloatOfSpaces(s: string)
    requires AllSpace(s)
    ensures ParseFloat(s) == NaN
  {
    TrimStartOfSpaces(s);
    NoLiteral([]);
  }

  /**
   * A dangling exponent mark: `Number` rejects the whole string while
   * `parseFloat` keeps the literal before it.
   */
  lemma DanglingExponent()
    ensures StringToNumber("2.5e") == NaN
    ensures ParseFloat("2.5e") == Finite(2.5)
  {
    hide StateAt, CollectedAt, StringToNumber, ParseFloat, ScanLiteral, IsDecimalLiteral, LiteralValue, LongestLiteralPrefix;
    var t := "2.5e";
    assert !IsJsSpace(t[0]) && !IsJsSpace(t[|t| - 1]);
    TrimOfTrimmed(t);
    assert TrimStart(t) == t;
    LiteralsOf25e();
  }

  /** "2.5e" is not a literal; its longest literal prefix is "2.5", worth 2.5. */
  lemma LiteralsOf25e()
    ensures !IsDecimalLiteral("2.5e") && LongestLiteralPrefix("2.5e", 3) && LiteralValue("2.5e"[..3]) == 2.5
  {
    hide StateAt, CollectedAt;
    var t := "2.5e";
    ReadingOf25e();
    ReadingOfPrefix(t, 3);
    ReadingOfPrefix(t, 4);
    assert t[..4] == t;
    assert ShiftDecimal(5.0, -1) == 0.5;
  }

  lemma ReadingOf25e()
    ensures StateAt("2.5e", 3) == InFrac && CollectedAt("2.5e", 3) == Collected(false, 2, 5, 1, false, 0)
    ensures StateAt("2.5e", 4) == AfterExpMark
  {
    var t := "2.5e";
    assert StateAt(t, 1) == InInt && CollectedAt(t, 1) == Collected(false, 2, 0, 0, false, 0);
    assert StateAt(t, 2) == AfterIntPoint && CollectedAt(t, 2) == Collected(false, 2, 0, 0, false, 0);
  }

  // ScanLiteral against the grammar

  /** Reading a prefix of a prefix is reading the prefix. */
  lemma {:induction false} PrefixReadsAlike(s: string, k: nat, n: nat)
    requires n <= k <= |s|
    ensures StateAt(s[..k], n) == StateAt(s, n)
    ensures CollectedAt(s[..k], n) == CollectedAt(s, n)
    decreases n
  {
    hide *;
    if n == 0 {
      ReadStart(s[..k]);
      ReadStart(s);
    } else {
      PrefixReadsAlike(s, k, n - 1);
      ReadStep(s[..k], n);
      ReadStep(s, n);
      assert s[..k][n - 1] == s[n - 1];
    }
  }

  /** Whether the prefix `s[..k]` is a literal, and its value, from the reading of `s`. */
  lemma ReadingOfPrefix(s: string, k: nat)
    requires k <= |s|
    ensures IsDecimalLiteral(s[..k]) <==> Accepting(StateAt(s, k))
    ensures LiteralValue(s[..k]) == CollectedValue(CollectedAt(s, k))
  {
    PrefixReadsAlike(s, k, k);
  }

  /** The reading before any character. */
  lemma ReadStart(s: string)
    ensures StateAt(s, 0) == AtStart && CollectedAt(s, 0) == NothingCollected
  {
  }

  /** One step of the reading. */
  lemma ReadStep(s: string, k: nat)
    requires 0 < k <= |s|
    ensures StateAt(s, k) == Step(StateAt(s, k - 1), s[k - 1])
    ensures CollectedAt(s, k) == Collect(CollectedAt(s, k - 1), StateAt(s, k), s[k - 1])
  {
  }

  /** Integer digits read from the start or after the sign accumulate into the integer value. */
  lemma {:induction false} IntRun(s: string, i: nat, n: nat)
    requires i + n <= |s| && AllDigits(s[i..i + n])
    requires StateAt(s, i) == AtStart || StateAt(s, i) == AfterSign
    requires CollectedAt(s, i).intValue == 0
    ensures n > 0 ==> StateAt(s, i + n) == InInt
    ensures n > 0 ==> CollectedAt(s, i + n) == CollectedAt(s, i).(intValue := DigitsValue(s[i..i + n]))
    decreases n
  {
    hide StateAt, CollectedAt;
    if n > 0 {
      var ds := s[i..i + n];
      assert ds[..n - 1] == s[i..i + n - 1] && ds[n - 1] == s[i + n - 1];
      assert AllDigits(s[i..i + n - 1]);
      IntRun(s, i, n - 1);
      ReadStep(s, i + n);
    }
  }

  /** Fraction digits read after the point accumulate into the fraction value and count. */
  lemma {:induction false} FracRun(s: string, i: nat, n: nat)
    requires i + n <= |s| && AllDigits(s[i..i + n])
    requires StateAt(s, i) == AfterIntPoint || StateAt(s, i) == AfterLonePoint
    requires CollectedAt(s, i).fracValue == 0 && CollectedAt(s, i).fracCount == 0
    ensures n > 0 ==> StateAt(s, i + n) == InFrac
    ensures n > 0 ==>
      CollectedAt(s, i + n) == CollectedAt(s, i).(fracValue := DigitsValue(s[i..i + n]), fracCount := n)
    decreases n
  {
    hide StateAt, CollectedAt;
    if n > 0 {
      var ds := s[i..i + n];
      assert ds[..n - 1] == s[i..i + n - 1] && ds[n - 1] == s[i + n - 1];
      assert AllDigits(s[i..i + n - 1]);
      FracRun(s, i, n - 1);
      ReadStep(s, i + n);
    }
  }

  /** Exponent digits read after the mark (and its sign) accumulate into the exponent value. */
  lemma {:induction false} ExpRun(s: string, i: nat, n: nat)
    requires i + n <= |s| && AllDigits(s[i..i + n])
    requires StateAt(s, i) == AfterExpMark || StateAt(s, i) == AfterExpSign
    requires CollectedAt(s, i).expValue == 0
    ensures n > 0 ==> StateAt(s, i + n) == InExp
    ensures n > 0 ==> CollectedAt(s, i + n) == CollectedAt(s, i).(expValue := DigitsValue(s[i..i + n]))
    decreases n
  {
    hide StateAt, CollectedAt;
    if n > 0 {
      var ds := s[i..i + n];
      assert ds[..n - 1] == s[i..i + n - 1] && ds[n - 1] == s[i + n - 1];
      assert AllDigits(s[i..i + n - 1]);
      ExpRun(s, i, n - 1);
      ReadStep(s, i + n);
    }
  }

  lemma {:induction false} StuckStays(s: string, p: nat, q: nat)
    requires p <= q <= |s| && StateAt(s, p) == Stuck
    ensures StateAt(s, q) == Stuck
    decreases q - p
  {
    hide StateAt, CollectedAt;
    if q > p {
      StuckStays(s, p, q - 1);
      ReadStep(s, q);
    }
  }

  /** Once the reading is stuck, no prefix from there on is a literal. */
  lemma NothingAcceptedFrom(s: string, p: nat)
    requires p <= |s| && StateAt(s, p) == Stuck
    ensures forall q :: p <= q <= |s| ==> !IsDecimalLiteral(s[..q])
  {
    forall q | p <= q <= |s|
      ensures !IsDecimalLiteral(s[..q])
    {
      StuckStays(s, p, q);
      ReadingOfPrefix(s, q);
    }
  }

  /** The reading after the sign and the integer digits `ScanMantissa` takes. */
  lemma LexThroughInt(s: string)
    ensures
      var k := if |s| > 0 && IsSign(s[0]) then 1 else 0;
      var n := DigitRun(s, k);
      && StateAt(s, k + n) == (if n > 0 then InInt else if k == 1 then AfterSign else AtStart)
      && CollectedAt(s, k + n) == Collected(k == 1 && s[0] == '-', DigitsValue(s[k..k + n]), 0, 0, false, 0)
  {
    var k := if |s| > 0 && IsSign(s[0]) then 1 else 0;
    IntRun(s, k, DigitRun(s, k));
  }

  /** A point and the `n` fraction digits after it, read after the integer part. */
  lemma PointThenFraction(s: string, j: nat, n: nat)
    requires j < |s| && s[j] == '.' && n == DigitRun(s, j + 1)
    requires StateAt(s, j) == AtStart || StateAt(s, j) == AfterSign || StateAt(s, j) == InInt
    requires CollectedAt(s, j).fracValue == 0 && CollectedAt(s, j).fracCount == 0
    ensures n > 0 ==> StateAt(s, j + 1 + n) == InFrac
    ensures n == 0 && StateAt(s, j) == InInt ==> StateAt(s, j + 1 + n) == AfterIntPoint
    ensures n == 0 && StateAt(s, j) != InInt ==> StateAt(s, j + 1 + n) == AfterLonePoint
    ensures CollectedAt(s, j + 1 + n) ==
      CollectedAt(s, j).(fracValue := DigitsValue(s[j + 1..j + 1 + n]), fracCount := n)
  {
    hide StateAt, CollectedAt;
    ReadStep(s, j + 1);
    FracRun(s, j + 1, n);
  }

  /** The pieces `ScanMantissa` returns, as runs of digits around an optional point. */
  lemma ScanMantissaParts(s: string, k: nat, j: nat)
    requires k == (if |s| > 0 && IsSign(s[0]) then 1 else 0) && j == k + DigitRun(s, k)
    ensures ScanMantissa(s).0 == (k == 1 && s[0] == '-') && ScanMantissa(s).1 == s[k..j]
    ensures j < |s| && s[j] == '.' ==>
      var n := DigitRun(s, j + 1);
      ScanMantissa(s).2 == s[j + 1..j + 1 + n] && ScanMantissa(s).3 == j + 1 + n
    ensures !(j < |s| && s[j] == '.') ==> ScanMantissa(s).2 == [] && ScanMantissa(s).3 == j
  {
    assert DigitsAt(s, k) == s[k..j];
    if j < |s| && s[j] == '.' {
      assert DigitsAt(s, j + 1) == s[j + 1..j + 1 + DigitRun(s, j + 1)];
    }
  }

  /**
   * The reading of the mantissa `ScanMantissa` finds: it collects the same
   * sign and digits, and when there are digits it stands in an accepting
   * state that the next character can extend only by an exponent.
   */
  lemma MantissaRead(s: string)
    ensures
      var r := ScanMantissa(s);
      && CollectedAt(s, r.3) == Collected(r.0, DigitsValue(r.1), DigitsValue(r.2), |r.2|, false, 0)
      && (|r.1| > 0 || |r.2| > 0 ==>
            && (StateAt(s, r.3) == InInt || StateAt(s, r.3) == AfterIntPoint || StateAt(s, r.3) == InFrac)
            && (r.3 < |s| ==> !IsDigit(s[r.3]) && (StateAt(s, r.3) == InInt ==> s[r.3] != '.')))
  {
    hide *;
    var k := if |s| > 0 && IsSign(s[0]) then 1 else 0;
    var j := k + DigitRun(s, k);
    ScanMantissaParts(s, k, j);
    LexThroughInt(s);
    if j < |s| && s[j] == '.' {
      PointThenFraction(s, j, DigitRun(s, j + 1));
    } else {
      NoDigitsValue();
    }
  }

  lemma NoDigitsValue()
    ensures DigitsValue([]) == 0
  {
  }

  /** An exponent mark and the optional sign after it, read after a whole mantissa. */
  lemma ExpMarkThenSign(s: string, m: nat)
    requires m < |s| && IsExpMark(s[m])
    requires StateAt(s, m) == InInt || StateAt(s, m) == AfterIntPoint || StateAt(s, m) == InFrac
    ensures StateAt(s, m + 1) == AfterExpMark && CollectedAt(s, m + 1) == CollectedAt(s, m)
    ensures m + 1 < |s| && IsSign(s[m + 1]) ==>
      && StateAt(s, m + 2) == AfterExpSign
      && CollectedAt(s, m + 2) == CollectedAt(s, m).(expNegative := s[m + 1] == '-')
  {
    hide StateAt, CollectedAt;
    ReadStep(s, m + 1);
    if m + 1 < |s| && IsSign(s[m + 1]) {
      ReadStep(s, m + 2);
    }
  }

  /** What `ScanExponent` returns, as an exponent mark, an optional sign and a run of digits. */
  lemma ScanExponentParts(s: string, m: nat)
    requires m <= |s|
    ensures ScanExponent(s, m).Some? ==> m < |s| && IsExpMark(s[m])
    ensures m < |s| && IsExpMark(s[m]) ==>
      var e := if m + 1 < |s| && IsSign(s[m + 1]) then 1 else 0;
      var n := DigitRun(s, m + 1 + e);
      && (n > 0 ==> ScanExponent(s, m) == Some((e == 1 && s[m + 1] == '-', s[m + 1 + e..m + 1 + e + n], m + 1 + e + n)))
      && (n == 0 ==> ScanExponent(s, m).None?)
  {
    if m < |s| && IsExpMark(s[m]) {
      var e := if m + 1 < |s| && IsSign(s[m + 1]) then 1 else 0;
      assert DigitsAt(s, m + 1 + e) == s[m + 1 + e..m + 1 + e + DigitRun(s, m + 1 + e)];
    }
  }

  /** An exponent mark, its optional sign and `n` digits, read after a whole mantissa. */
  lemma ExponentRead(s: string, m: nat, e: nat, n: nat)
    requires m < |s| && IsExpMark(s[m])
    requires e == (if m + 1 < |s| && IsSign(s[m + 1]) then 1 else 0) && n == DigitRun(s, m + 1 + e)
    requires StateAt(s, m) == InInt || StateAt(s, m) == AfterIntPoint || StateAt(s, m) == InFrac
    requires CollectedAt(s, m).expValue == 0 && !CollectedAt(s, m).expNegative
    ensures n > 0 ==> StateAt(s, m + 1 + e + n) == InExp
    ensures n > 0 ==> CollectedAt(s, m + 1 + e + n) == CollectedAt(s, m).(
      expNegative := e == 1 && s[m + 1] == '-',
      expValue := DigitsValue(s[m + 1 + e..m + 1 + e + n]))
  {
    hide *;
    ExpMarkThenSign(s, m);
    ExpRun(s, m + 1 + e, n);
  }

  /**
   * The exponent `ScanExponent` finds after a whole mantissa is read in full,
   * and nothing after it extends the literal.
   */
  lemma ExponentFound(s: string, m: nat)
    requires m <= |s| && ScanExponent(s, m).Some?
    requires StateAt(s, m) == InInt || StateAt(s, m) == AfterIntPoint || StateAt(s, m) == InFrac
    requires CollectedAt(s, m).expValue == 0 && !CollectedAt(s, m).expNegative
    ensures
      var end := ScanExponent(s, m).value.2;
      && StateAt(s, end) == InExp
      && CollectedAt(s, end) == CollectedAt(s, m).(
           expNegative := ScanExponent(s, m).value.0,
           expValue := DigitsValue(ScanExponent(s, m).value.1))
      && forall q :: end < q <= |s| ==> !IsDecimalLiteral(s[..q])
  {
    hide *;
    var e := if m + 1 < |s| && IsSign(s[m + 1]) then 1 else 0;
    var p := m + 1 + e;
    var n := DigitRun(s, p);
    var end := p + n;
    ScanExponentParts(s, m);
    ExponentRead(s, m, e, n);
    if end < |s| {
      PastExponent(s, end);
      NothingAcceptedFrom(s, end + 1);
    }
  }

  /** The reading gets stuck at the first character after the exponent digits. */
  lemma PastExponent(s: string, p: nat)
    requires p < |s| && !IsDigit(s[p]) && StateAt(s, p) == InExp
    ensures StateAt(s, p + 1) == Stuck
  {
    ReadStep(s, p + 1);
  }

  /** The reading gets stuck where the digits an exponent needs are missing. */
  lemma NoExponentDigit(s: string, p: nat)
    requires p < |s| && !IsDigit(s[p])
    requires StateAt(s, p) == AfterExpSign || (StateAt(s, p) == AfterExpMark && !IsSign(s[p]))
    ensures StateAt(s, p + 1) == Stuck
  {
    ReadStep(s, p + 1);
  }

  /** A prefix whose reading ends without an accepting state is not a literal. */
  lemma NotAcceptedAt(s: string, q: nat)
    requires q <= |s|
    requires
      || StateAt(s, q) == AtStart || StateAt(s, q) == AfterSign || StateAt(s, q) == AfterLonePoint
      || StateAt(s, q) == AfterExpMark || StateAt(s, q) == AfterExpSign || StateAt(s, q) == Stuck
    ensures !IsDecimalLiteral(s[..q])
  {
    ReadingOfPrefix(s, q);
  }

  /** An exponent mark with no digits after it, after a whole mantissa, leads nowhere. */
  lemma ExponentMissing(s: string, m: nat)
    requires m < |s| && IsExpMark(s[m]) && ScanExponent(s, m).None?
    requires StateAt(s, m) == InInt || StateAt(s, m) == AfterIntPoint || StateAt(s, m) == InFrac
    ensures forall q :: m < q <= |s| ==> !IsDecimalLiteral(s[..q])
  {
    hide *;
    var e := if m + 1 < |s| && IsSign(s[m + 1]) then 1 else 0;
    var p := m + 1 + e;
    ScanExponentParts(s, m);
    ExpMarkThenSign(s, m);
    if p < |s| {
      NoExponentDigit(s, p);
      NothingAcceptedFrom(s, p + 1);
    }
    forall q | m < q <= p
      ensures !IsDecimalLiteral(s[..q])
    {
      if q != m + 1 {
        assert q == p;
      }
      NotAcceptedAt(s, q);
    }
  }

  /**
   * After a whole mantissa whose next character is neither a digit nor a
   * second point, only an exponent extends the literal.
   */
  lemma AfterMantissa(s: string, m: nat)
    requires m <= |s|
    requires StateAt(s, m) == InInt || StateAt(s, m) == AfterIntPoint || StateAt(s, m) == InFrac
    requires CollectedAt(s, m).expValue == 0 && !CollectedAt(s, m).expNegative
    requires m < |s| ==> !IsDigit(s[m]) && (StateAt(s, m) == InInt ==> s[m] != '.')
    ensures ScanExponent(s, m).None? ==> forall q :: m < q <= |s| ==> !IsDecimalLiteral(s[..q])
    ensures ScanExponent(s, m).Some? ==>
      var end := ScanExponent(s, m).value.2;
      && StateAt(s, end) == InExp
      && CollectedAt(s, end) == CollectedAt(s, m).(
           expNegative := ScanExponent(s, m).value.0,
           expValue := DigitsValue(ScanExponent(s, m).value.1))
      && forall q :: end < q <= |s| ==> !IsDecimalLiteral(s[..q])
  {
    if ScanExponent(s, m).Some? {
      ExponentFound(s, m);
    } else if m < |s| {
      if IsExpMark(s[m]) {
        ExponentMissing(s, m);
      } else {
        NothingAcceptedFrom(s, m + 1);
      }
    }
  }

  /** Without a mantissa there is no literal at all, however long the prefix. */
  lemma ScanLiteralNone(s: string)
    requires ScanLiteral(s).None?
    ensures forall q :: 0 <= q <= |s| ==> !IsDecimalLiteral(s[..q])
  {
    hide *;
    var k := if |s| > 0 && IsSign(s[0]) then 1 else 0;
    var j := k + DigitRun(s, k);
    var m := ScanMantissa(s).3;
    NoMantissa(s);
    ReadStart(s);
    ScanMantissaParts(s, k, j);
    LexThroughInt(s);
    if j < |s| && s[j] == '.' {
      PointThenFraction(s, j, DigitRun(s, j + 1));
    }
    if m < |s| {
      NoMantissaStuck(s, m);
      NothingAcceptedFrom(s, m + 1);
    }
    forall q | 0 <= q <= m
      ensures !IsDecimalLiteral(s[..q])
    {
      if q != 0 && q != k {
        assert q == m;
      }
      NotAcceptedAt(s, q);
    }
  }

  /** `ScanLiteral` finds nothing exactly when the mantissa has no digits. */
  lemma NoMantissa(s: string)
    ensures ScanLiteral(s).None? <==> ScanMantissa(s).1 == [] && ScanMantissa(s).2 == []
  {
  }

  /** Without a digit before or after the point, the reading gets stuck at the next character. */
  lemma NoMantissaStuck(s: string, m: nat)
    requires m < |s| && !IsDigit(s[m])
    requires
      || StateAt(s, m) == AfterLonePoint
      || (StateAt(s, m) == AfterSign && s[m] != '.')
      || (StateAt(s, m) == AtStart && s[m] != '.' && !IsSign(s[m]))
    ensures StateAt(s, m + 1) == Stuck
  {
    ReadStep(s, m + 1);
  }

  /** With a mantissa, the literal `ScanLiteral` returns is the longest one, with its value. */
  lemma ScanLiteralSome(s: string)
    requires ScanLiteral(s).Some?
    ensures LongestLiteralPrefix(s, ScanLiteral(s).value.length)
    ensures ScanLiteral(s).value.Value() == LiteralValue(s[..ScanLiteral(s).value.length])
  {
    var (negative, ds, fs, m) := ScanMantissa(s);
    MantissaRead(s);
    AfterMantissa(s, m);
    match ScanExponent(s, m)
    case Some((expNegative, es, end)) =>
      ReadingOfPrefix(s, end);
      ValueOfCollected(Literal(negative, ds, fs, expNegative, es, end), CollectedAt(s, end));
    case None =>
      ReadingOfPrefix(s, m);
      ValueOfCollected(Literal(negative, ds, fs, false, [], m), CollectedAt(s, m));
  }

  /** A literal's value is the value of a reading that collected its pieces. */
  lemma ValueOfCollected(lit: Literal, v: Collected)
    requires lit.WellFormed()
    requires v.negative == lit.negative && v.expNegative == lit.expNegative
    requires v.intValue == DigitsValue(lit.intDigits) && v.fracValue == DigitsValue(lit.fracDigits)
    requires v.fracCount == |lit.fracDigits| && v.expValue == DigitsValue(lit.expDigits)
    ensures lit.Value() == CollectedValue(v)
  {
  }

  /**
   * `ScanLiteral` against the grammar: it finds a literal exactly when some
   * non-empty prefix is one, and then it finds the longest such prefix and
   * that prefix's value.
   */
  lemma ScanLiteralIsLongestLiteral(s: string)
    ensures ScanLiteral(s).Some? <==> exists k :: 0 < k <= |s| && IsDecimalLiteral(s[..k])
    ensures ScanLiteral(s).Some? ==>
      && LongestLiteralPrefix(s, ScanLiteral(s).value.length)
      && ScanLiteral(s).value.Value() == LiteralValue(s[..ScanLiteral(s).value.length])
    ensures forall k: nat :: LongestLiteralPrefix(s, k) ==> ScanLiteral(s).Some? && k == ScanLiteral(s).value.length
  {
    if ScanLiteral(s).Some? {
      ScanLiteralSome(s);
      forall k: nat | LongestLiteralPrefix(s, k)
        ensures k == ScanLiteral(s).value.length
      {
        LongestIsUnique(s, k, ScanLiteral(s).value.length);
      }
    } else {
      ScanLiteralNone(s);
    }
  }

  /** A text has at most one longest literal prefix. */
  lemma LongestIsUnique(t: string, j: nat, k: nat)
    requires LongestLiteralPrefix(t, j) && LongestLiteralPrefix(t, k)
    ensures j == k
  {
  }

  /** `a / b` for finite operands: division by zero gives an infinity or NaN. */
  function Divide(a: real, b: real): (r: Number)
    ensures b != 0.0 ==> r == Finite(a / b)
    ensures b == 0.0 ==> (r.PosInf? <==> a > 0.0) && (r.NegInf? <==> a < 0.0) && (r.NaN? <==> a == 0.0)
  {
    if b != 0.0 then Finite(a / b)
    else if a > 0.0 then PosInf
    else if a < 0.0 then NegInf
    else NaN
  }

  /** `n * k` for a positive finite factor `k`. */
  function Scale(n: Number, k: real): (r: Number)
    requires k > 0.0
    ensures n.Finite? <==> r.Finite?
    ensures n.Finite? ==> r.x == n.x * k
    ensures !n.Finite? ==> r == n
  {
    match n
    case Finite(x) => Finite(x * k)
    case _ => n
  }

  /** `Math.max(n, c)`: NaN is contagious. */
  function Max(n: Number, c: real): (r: Number)
    ensures n.NaN? <==> r.NaN?
    ensures n.PosInf? <==> r.PosInf?
    ensures !r.NegInf?
    ensures r.Finite? ==> r.x >= c
  {
    match n
    case Finite(x) => Finite(if x >= c then x else c)
    case NegInf => Finite(c)
    case _ => n
  }

  /** `Math.min(n, c)`: NaN is contagious. */
  function Min(n: Number, c: real): (r: Number)
    ensures n.NaN? <==> r.NaN?
    ensures n.NegInf? <==> r.NegInf?
    ensures !r.PosInf?
    ensures r.Finite? ==> r.x <= c
  {
    match n
    case Finite(x) => Finite(if x <= c then x else c)
    case PosInf => Finite(c)
    case _ => n
  }

  /** `n > c`: false whenever `n` is NaN. */
  predicate Greater(n: Number, c: real) {
    match n
    case Finite(x) => x > c
    case PosInf => true
    case _ => false
  }
}
