/**
 * The page-zoom stepper: a current zoom level that the "-" and "+" buttons
 * move along a fixed, increasing list of steps, a centre button that resets
 * it to the default, a callback fired on every assignment, and the label
 * the centre button shows. Zoom levels are integer percentages, so 1.0 is
 * 100 and every step is exact.
 */
module PageZoom {
  import opened Wrappers
  import ArrayExtensions

  const MinValue: int := 50
  const MaxValue: int := 300
  const DefaultValue: int := 100

  const Steps: seq<int> := [50, 75, 85, 100, 115, 125, 150, 175, 200, 250, 300]

  /** The steps run strictly upwards from the minimum to the maximum. */
  lemma StepsShape()
    ensures ArrayExtensions.Increasing(Steps)
    ensures Steps[0] == MinValue && Steps[|Steps| - 1] == MaxValue
    ensures DefaultValue in Steps
  {
  }

  /** `Array.firstIndex(of:)`. */
  function FirstIndexOf(s: seq<int>, v: int): (r: Option<nat>)
    ensures r.None? <==> v !in s
    ensures r.Some? ==> r.value < |s| && s[r.value] == v
    ensures r.Some? ==> forall j :: 0 <= j < r.value ==> s[j] != v
  {
    if s == [] then None
    else if s[0] == v then Some(0)
    else match FirstIndexOf(s[1..], v)
      case None => None
      case Some(i) => Some(i + 1)
  }

  /** In a strictly increasing list the first index of an element is its
      only index. */
  lemma FirstIndexInIncreasing(s: seq<int>, i: int)
    requires ArrayExtensions.Increasing(s) && 0 <= i < |s|
    ensures FirstIndexOf(s, s[i]) == Some(i)
  {
  }

  /** The level `increment` leaves behind. */
  function Incremented(v: int): int {
    if v == MaxValue then v
    else match FirstIndexOf(Steps, v)
      case None => v
      case Some(i) => Steps[i + 1]
  }

  /** The level `decrement` leaves behind. */
  function Decremented(v: int): int {
    if v == MinValue then v
    else match FirstIndexOf(Steps, v)
      case None => v
      case Some(i) => Steps[i - 1]
  }

  /** The step right after step `i`, for every step but the last. */
  lemma IncrementedAt(i: int)
    requires 0 <= i < |Steps| - 1
    ensures Incremented(Steps[i]) == Steps[i + 1]
  {
    StepsShape();
    FirstIndexInIncreasing(Steps, i);
  }

  /** The step right before step `i`, for every step but the first. */
  lemma DecrementedAt(i: int)
    requires 0 < i < |Steps|
    ensures Decremented(Steps[i]) == Steps[i - 1]
  {
    StepsShape();
    FirstIndexInIncreasing(Steps, i);
  }

  /** `increment` stays at the maximum, moves every other step to the step
      right after it, and leaves a level that is not a step alone. */
  lemma IncrementedSpec(v: int)
    ensures v == MaxValue ==> Incremented(v) == v
    ensures v !in Steps ==> Incremented(v) == v
    ensures forall i :: 0 <= i < |Steps| - 1 ==> Incremented(Steps[i]) == Steps[i + 1]
  {
    forall i | 0 <= i < |Steps| - 1
      ensures Incremented(Steps[i]) == Steps[i + 1]
    {
      IncrementedAt(i);
    }
  }

  /** `decrement` stays at the minimum, moves every other step to the step
      right before it, and leaves a level that is not a step alone. */
  lemma DecrementedSpec(v: int)
    ensures v == MinValue ==> Decremented(v) == v
    ensures v !in Steps ==> Decremented(v) == v
    ensures forall i :: 0 < i < |Steps| ==> Decremented(Steps[i]) == Steps[i - 1]
  {
    forall i | 0 < i < |Steps|
      ensures Decremented(Steps[i]) == Steps[i - 1]
    {
      DecrementedAt(i);
    }
  }

  /** Below the maximum, `decrement` undoes `increment`; above the minimum,
      `increment` undoes `decrement`. */
  lemma IncrementDecrementInverse(v: int)
    requires v in Steps
    ensures v != MaxValue ==> Decremented(Incremented(v)) == v
    ensures v != MinValue ==> Incremented(Decremented(v)) == v
  {
    var i := FirstIndexOf(Steps, v).value;
    IncrementedSpec(v);
    DecrementedSpec(v);
    DecrementedSpec(Incremented(v));
    IncrementedSpec(Decremented(v));
  }

  /** The buttons of the stepper. */
  datatype ZoomButton = Minus | Plus | Reset

  /** The level after one tap. */
  function Tap(v: int, b: ZoomButton): int {
    match b
    case Minus => Decremented(v)
    case Plus => Incremented(v)
    case Reset => DefaultValue
  }

  /** The level after a sequence of taps, oldest first. */
  function TapAll(v: int, taps: seq<ZoomButton>): int
    decreases |taps|
  {
    if taps == [] then v else TapAll(Tap(v, taps[0]), taps[1..])
  }

  predicate InRange(v: int) {
    MinValue <= v <= MaxValue
  }

  /** One tap keeps a step a step. */
  lemma TapKeepsStep(v: int, b: ZoomButton)
    requires v in Steps
    ensures Tap(v, b) in Steps && InRange(Tap(v, b))
  {
    var i := FirstIndexOf(Steps, v).value;
    StepsShape();
    IncrementedSpec(v);
    DecrementedSpec(v);
  }

  /** A level that starts on a step stays on a step, within
      [`MinValue`, `MaxValue`], whatever the buttons tapped. */
  lemma {:induction false} TapAllKeepsStep(v: int, taps: seq<ZoomButton>)
    requires v in Steps
    ensures TapAll(v, taps) in Steps && InRange(TapAll(v, taps))
    decreases |taps|
  {
    StepsShape();
    if taps != [] {
      TapKeepsStep(v, taps[0]);
      TapAllKeepsStep(Tap(v, taps[0]), taps[1..]);
    }
  }

  // ---------------------------------------------------------------------------
  // The view's state
  // ---------------------------------------------------------------------------

  /** `PageZoomView`: `currentValue` with its `didSet`, and the values passed
      to `pageZoomUpdated`, oldest first. */
  class PageZoomView {
    var currentValue: int
    var notified: seq<int>

    /** The `@State` initial value does not go through `didSet`. */
    constructor ()
      ensures currentValue == DefaultValue && notified == []
    {
      currentValue := DefaultValue;
      notified := [];
    }

    /** An assignment to `currentValue`; `didSet` reports the new value. */
    method SetCurrentValue(v: int)
      modifies this
      ensures currentValue == v
      ensures notified == old(notified) + [v]
    {
      currentValue := v;
      notified := notified + [v];
    }

    /** `increment()`: returns early at the maximum or off the steps. */
    method Increment()
      modifies this
      ensures currentValue == Incremented(old(currentValue))
      ensures notified == if old(currentValue) == MaxValue || old(currentValue) !in Steps
                          then old(notified) else old(notified) + [currentValue]
    {
      if currentValue == MaxValue {
        return;
      }
      var index := FirstIndexOf(Steps, currentValue);
      if index.None? {
        return;
      }
      SetCurrentValue(Steps[index.value + 1]);
    }

    /** `decrement()`: returns early at the minimum or off the steps. */
    method Decrement()
      modifies this
      ensures currentValue == Decremented(old(currentValue))
      ensures notified == if old(currentValue) == MinValue || old(currentValue) !in Steps
                          then old(notified) else old(notified) + [currentValue]
    {
      if currentValue == MinValue {
        return;
      }
      var index := FirstIndexOf(Steps, currentValue);
      if index.None? {
        return;
      }
      SetCurrentValue(Steps[index.value - 1]);
    }

    /** The centre button: `currentValue = defaultValue`, which notifies even
        when the level already is the default. */
    method ResetTapped()
      modifies this
      ensures currentValue == DefaultValue
      ensures notified == old(notified) + [DefaultValue]
    {
      SetCurrentValue(DefaultValue);
    }

    /** `.disabled(currentValue == minValue)` on "-". */
    function MinusDisabled(): bool
      reads this
    {
      currentValue == MinValue
    }

    /** `.disabled(currentValue == maxValue)` on "+". */
    function PlusDisabled(): bool
      reads this
    {
      currentValue == MaxValue
    }

    /** On a step, a button is disabled exactly where tapping it could not
        move the level; an enabled button moves it strictly in its
        direction. */
    lemma EnabledButtonsMove()
      requires currentValue in Steps
      ensures MinusDisabled() <==> Decremented(currentValue) == currentValue
      ensures !MinusDisabled() ==> Decremented(currentValue) < currentValue
      ensures PlusDisabled() <==> Incremented(currentValue) == currentValue
      ensures !PlusDisabled() ==> Incremented(currentValue) > currentValue
    {
      StepsShape();
      IncrementedSpec(currentValue);
      DecrementedSpec(currentValue);
    }
  }

  // ---------------------------------------------------------------------------
  // The centre button's label
  // ---------------------------------------------------------------------------

  function DigitChar(d: int): char
    requires 0 <= d < 10
  {
    "0123456789"[d]
  }

  predicate IsDigit(c: char) {
    '0' <= c <= '9'
  }

  function DigitValue(c: char): int {
    c as int - '0' as int
  }

  /** Decimal notation of a natural number, without leading zeros. */
  function NatToString(n: nat): (r: string)
    ensures |r| >= 1
    decreases n
  {
    if n < 10 then [DigitChar(n)] else NatToString(n / 10) + [DigitChar(n % 10)]
  }

  /** String interpolation of an `Int`. */
  function IntToString(n: int): string {
    if n < 0 then "-" + NatToString(-n) else NatToString(n)
  }

  predicate AllDigits(s: string) {
    forall k :: 0 <= k < |s| ==> IsDigit(s[k])
  }

  /** The number a string of decimal digits denotes. */
  function DecimalValue(s: string): nat
    requires AllDigits(s)
    decreases |s|
  {
    if s == [] then 0
    else
      assert AllDigits(s[..|s| - 1]);
      DecimalValue(s[..|s| - 1]) * 10 + DigitValue(s[|s| - 1])
  }

  /** Decimal notation reads back as the number it writes. */
  lemma {:induction false} DecimalRoundTrip(n: nat)
    ensures AllDigits(NatToString(n))
    ensures DecimalValue(NatToString(n)) == n
    ensures NatToString(n)[0] != '0' || n == 0
    decreases n
  {
    if n >= 10 {
      DecimalRoundTrip(n / 10);
      var s := NatToString(n / 10);
      var t := NatToString(n);
      assert t == s + [DigitChar(n % 10)];
      assert t[..|t| - 1] == s;
      assert DecimalValue(t) == DecimalValue(s) * 10 + n % 10;
    }
  }

  /** `percentDisplay(for:)`: the percentage and "%", padded with one space
      when that is shorter than four characters. */
  function PercentDisplay(value: int): string {
    var str := IntToString(value) + "%";
    if |str| < 4 then str + " " else str
  }

  /** Reads a label back: drops the padding space and the "%", and decodes
      the digits. */
  function ParsePercentLabel(text: string): Option<nat> {
    var s := if |text| > 0 && text[|text| - 1] == ' ' then text[..|text| - 1] else text;
    if |s| >= 2 && s[|s| - 1] == '%' && AllDigits(s[..|s| - 1])
    then Some(DecimalValue(s[..|s| - 1]))
    else None
  }

  /** The label of a non-negative level is its decimal digits, "%", and
      a space exactly when the digits are fewer than three. */
  lemma PercentDisplayShape(value: nat)
    ensures PercentDisplay(value) == NatToString(value) + "%"
              + (if |NatToString(value)| < 3 then " " else "")
  {
  }

  /** Every label reads back as the level it shows. */
  lemma PercentDisplayRoundTrip(value: nat)
    ensures ParsePercentLabel(PercentDisplay(value)) == Some(value)
  {
    DecimalRoundTrip(value);
    var str := NatToString(value) + "%";
    assert str[..|str| - 1] == NatToString(value);
    if |str| < 4 {
      assert (str + " ")[..|str|] == str;
    }
  }

  /** A level of two or more digits takes a label of at least four
      characters, so every step's label does. */
  lemma {:induction false} PercentDisplayLength(value: int)
    requires value >= 10
    ensures |PercentDisplay(value)| >= 4
  {
    assert |NatToString(value)| >= 2 by {
      assert NatToString(value) == NatToString(value / 10) + [DigitChar(value % 10)];
    }
  }

  lemma StepLabelsAreWide()
    ensures forall i :: 0 <= i < |Steps| ==> |PercentDisplay(Steps[i])| >= 4
  {
    forall i | 0 <= i < |Steps|
      ensures |PercentDisplay(Steps[i])| >= 4
    {
      PercentDisplayLength(Steps[i]);
    }
  }
}
