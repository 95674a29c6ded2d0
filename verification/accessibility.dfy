/**
 * The arithmetic of the accessibility helpers: the roving index of keyboard
 * navigation over a list of items, the tab indexes it assigns, the
 * wrap-around rule of the focus trap, and the contrast ratio.
 */
module Accessibility {
  import opened Common

  /** `currentIndex`: a number, which becomes NaN once `% 0` is taken with no items. */
  datatype Index = At(i: int) | NotANumber

  datatype Key = ArrowDown | ArrowUp | Home | End | Enter | Space | OtherKey

  /** What a key press does besides moving the index. */
  datatype Effect = Refocus | Activate | NoEffect

  datatype Outcome = Outcome(index: Index, effect: Effect, preventDefault: bool)

  /** `a % n` on numbers: the remainder truncates toward zero, and `% 0` is NaN. */
  function JsRem(a: int, n: nat): (r: Index)
    ensures n == 0 <==> r.NotANumber?
    ensures n > 0 && 0 <= a ==> r == At(a % n)
    ensures n > 0 ==> -(n as int) < r.i < n
  {
    if n == 0 then NotANumber
    else if a >= 0 then At(a % n)
    else At(-((-a) % n))
  }

  predicate InRange(index: Index, n: nat) {
    index.At? && 0 <= index.i < n
  }

  /** `handleKeyDown` over `n` items. */
  function KeyDown(index: Index, n: nat, key: Key): (o: Outcome)
    ensures o.preventDefault <==> key != OtherKey
    ensures key in {Enter, Space, OtherKey} ==> o.index == index
    ensures o.effect == Refocus <==> key in {ArrowDown, ArrowUp, Home, End}
    ensures o.effect == Activate <==> key in {Enter, Space}
  {
    match key
    case ArrowDown =>
      var next := match index
        case At(i) => JsRem(i + 1, n)
        case NotANumber => NotANumber;
      Outcome(next, Refocus, true)
    case ArrowUp =>
      var next := match index
        case At(i) => if i == 0 then At(n - 1) else At(i - 1)
        case NotANumber => NotANumber;
      Outcome(next, Refocus, true)
    case Home => Outcome(At(0), Refocus, true)
    case End => Outcome(At(n - 1), Refocus, true)
    case Enter => Outcome(index, Activate, true)
    case Space => Outcome(index, Activate, true)
    case OtherKey => Outcome(index, NoEffect, false)
  }

  /** With at least one item, the index stays on an item whatever the key. */
  lemma KeyDownKeepsRange(index: Index, n: nat, key: Key)
    requires n > 0 && InRange(index, n)
    ensures InRange(KeyDown(index, n, key).index, n)
  {
  }

  /** ArrowDown moves to the next item and wraps from the last to the first. */
  lemma ArrowDownWraps(i: nat, n: nat)
    requires i < n
    ensures KeyDown(At(i), n, ArrowDown).index == At(if i == n - 1 then 0 else i + 1)
  {
  }

  /** ArrowUp moves to the previous item and wraps from the first to the last. */
  lemma ArrowUpWraps(i: nat, n: nat)
    requires i < n
    ensures KeyDown(At(i), n, ArrowUp).index == At(if i == 0 then n - 1 else i - 1)
  {
  }

  /** ArrowUp undoes ArrowDown, and ArrowDown undoes ArrowUp. */
  lemma UpUndoesDown(i: nat, n: nat)
    requires i < n
    ensures KeyDown(KeyDown(At(i), n, ArrowDown).index, n, ArrowUp).index == At(i)
    ensures KeyDown(KeyDown(At(i), n, ArrowUp).index, n, ArrowDown).index == At(i)
  {
    ArrowDownWraps(i, n);
    ArrowUpWraps(i, n);
    if i == 0 {
      ArrowDownWraps(n - 1, n);
    } else {
      ArrowDownWraps(i - 1, n);
    }
    if i == n - 1 {
      ArrowUpWraps(0, n);
    } else {
      ArrowUpWraps(i + 1, n);
    }
  }

  /** Home and End jump to the first and the last item. */
  lemma HomeAndEnd(index: Index, n: nat)
    requires n > 0
    ensures KeyDown(index, n, Home).index == At(0)
    ensures KeyDown(index, n, End).index == At(n - 1)
    ensures InRange(At(0), n) && InRange(At(n - 1), n)
  {
  }

  /** With no items ArrowDown takes `% 0` and the index becomes NaN for good. */
  lemma NoItemsGivesNaN(index: Index)
    ensures KeyDown(index, 0, ArrowDown).index == NotANumber
    ensures KeyDown(NotANumber, 0, ArrowUp).index == NotANumber
  {
  }

  /** `updateFocus`: item `k` gets tabindex `'0'` if it is the current one and `'-1'` otherwise. */
  function TabIndexes(n: nat, index: Index): (r: seq<string>)
    ensures |r| == n
    ensures forall k :: 0 <= k < n ==> r[k] == (if index == At(k) then "0" else "-1")
  {
    seq(n, k => if index == At(k) then "0" else "-1")
  }

  /** The number of positions holding `x`. */
  function Count(s: seq<string>, x: string): nat {
    if s == [] then 0 else (if s[0] == x then 1 else 0) + Count(s[1..], x)
  }

  lemma {:induction false} CountOfSingleton(s: seq<string>, x: string, p: nat)
    requires p < |s| && s[p] == x
    requires forall k :: 0 <= k < |s| && k != p ==> s[k] != x
    ensures Count(s, x) == 1
  {
    if p == 0 {
      CountAbsent(s[1..], x);
    } else {
      CountOfSingleton(s[1..], x, p - 1);
    }
  }

  lemma {:induction false} CountAbsent(s: seq<string>, x: string)
    requires forall k :: 0 <= k < |s| ==> s[k] != x
    ensures Count(s, x) == 0
  {
    if s != [] {
      CountAbsent(s[1..], x);
    }
  }

  /** After `updateFocus` exactly one item, the current one, is in the tab order. */
  lemma ExactlyOneTabStop(n: nat, i: nat)
    requires i < n
    ensures Count(TabIndexes(n, At(i)), "0") == 1
    ensures TabIndexes(n, At(i))[i] == "0"
    ensures forall k :: 0 <= k < n && k != i ==> TabIndexes(n, At(i))[k] == "-1"
  {
    CountOfSingleton(TabIndexes(n, At(i)), "0", i);
  }

  /** What the trap does on a key press: nothing, or move focus to an element. */
  datatype TrapAction<E> = Stay | MoveTo(target: E)

  /**
   * `handleTabKey` over the focusable elements, given the focused element.
   * With no focusable element both ends are `undefined`, which no focused
   * element equals.
   */
  function TrapKey<E(==)>(elements: seq<E>, active: Option<E>, key: string, shift: bool): (a: TrapAction<E>)
    ensures a.MoveTo? ==> a.target in elements
    ensures key != "Tab" || elements == [] ==> a == Stay
  {
    if key != "Tab" || elements == [] then Stay
    else if shift then
      if active == Some(elements[0]) then MoveTo(elements[|elements| - 1]) else Stay
    else
      if active == Some(elements[|elements| - 1]) then MoveTo(elements[0]) else Stay
  }

  /**
   * Shift+Tab on the first element moves to the last, Tab on the last moves
   * to the first, and in every other case the browser's own tabbing applies.
   */
  lemma TrapWraps<E>(elements: seq<E>, active: Option<E>, shift: bool)
    requires elements != []
    ensures shift && active == Some(elements[0]) ==>
      TrapKey(elements, active, "Tab", shift) == MoveTo(elements[|elements| - 1])
    ensures !shift && active == Some(elements[|elements| - 1]) ==>
      TrapKey(elements, active, "Tab", shift) == MoveTo(elements[0])
    ensures TrapKey(elements, active, "Tab", shift) == Stay <==>
      if shift then active != Some(elements[0]) else active != Some(elements[|elements| - 1])
  {
  }

  /** `getLuminance`: a fixed placeholder for every colour. */
  function Luminance(color: string): (l: real)
    ensures 0.0 <= l <= 1.0
  {
    0.5
  }

  /** `(lighter + 0.05) / (darker + 0.05)` for two luminances. */
  function Ratio(l1: real, l2: real): (r: real)
    requires l1 >= 0.0 && l2 >= 0.0
    ensures r >= 1.0
    ensures r == 1.0 <==> l1 == l2
  {
    var lighter := if l1 >= l2 then l1 else l2;
    var darker := if l1 <= l2 then l1 else l2;
    (lighter + 0.05) / (darker + 0.05)
  }

  /** The order of the two colours does not matter. */
  lemma RatioSymmetric(l1: real, l2: real)
    requires l1 >= 0.0 && l2 >= 0.0
    ensures Ratio(l1, l2) == Ratio(l2, l1)
  {
  }

  /** `checkColorContrast`. */
  function ContrastRatio(foreground: string, background: string): (r: real)
    ensures r >= 1.0
  {
    Ratio(Luminance(foreground), Luminance(background))
  }

  /** With the placeholder luminance every pair of colours has ratio 1, the minimum. */
  lemma ContrastAlwaysOne(foreground: string, background: string)
    ensures ContrastRatio(foreground, background) == 1.0
  {
  }
}
