/** The drum-style number picker (src/components/NumberScrollPicker.tsx):
    rows of `ITEM_HEIGHT` pixels showing `min..max`, snapping a scroll
    offset to the nearest row. Offsets are whole pixels here. */
module NumberScrollPicker {
  import opened Base
  import opened Text

  const ITEM_HEIGHT: int := 90

  /** `Math.round(offset / ITEM_HEIGHT)` for a whole-pixel offset: the row
      whose top is nearest, a tie going to the larger index. */
  function RoundIndex(offset: int): (i: int)
    ensures i * ITEM_HEIGHT - ITEM_HEIGHT / 2 <= offset < i * ITEM_HEIGHT + ITEM_HEIGHT / 2
  {
    (offset + ITEM_HEIGHT / 2) / ITEM_HEIGHT
  }

  /** What `doSnap(offset)` does: the value handed to `onChange`, and the
      offset it scrolls to when the view is not already there. */
  datatype SnapResult = SnapResult(value: int, correction: Option<int>)

  function Snap(offset: int, min: int, max: int): (r: SnapResult)
    ensures min <= max ==> min <= r.value <= max
    ensures r.correction.Some? ==> r.correction.value == (r.value - min) * ITEM_HEIGHT && r.correction.value != offset
  {
    var index := RoundIndex(offset);
    var clamped := Min(max - min, Max(0, index));
    var target := clamped * ITEM_HEIGHT;
    SnapResult(min + clamped, if offset != target then Some(target) else None)
  }

  /** The values of the rows, top to bottom (`Array.from` treats a
      negative length as 0). */
  function Items(min: int, max: int): (r: seq<int>)
    ensures |r| == Max(0, max - min + 1)
    ensures forall i :: 0 <= i < |r| ==> r[i] == min + i
  {
    seq(Max(0, max - min + 1), i => min + i)
  }

  /** The text of a row: `String(n)`, left-padded with '0' to `padStart`
      characters when `padStart` is positive. */
  function Label(n: int, padStart: int): string
  {
    if padStart > 0 then PadStart(IntToString(n), padStart, '0') else IntToString(n)
  }

  // ---------------------------------------------------------------------

  /** Scrolling to a value's row (what the picker does when its value is
      set) and snapping there gives the value back, with no correction. */
  lemma SnapOfRowOffset(v: int, min: int, max: int)
    requires min <= v <= max
    ensures Snap((v - min) * ITEM_HEIGHT, min, max) == SnapResult(v, None)
  {
    assert RoundIndex((v - min) * ITEM_HEIGHT) == v - min;
  }

  /** Within the list, the snapped value is the row nearest the offset; a
      correction is issued exactly when the offset is not a row's top. */
  lemma SnapNearest(offset: int, min: int, max: int)
    requires min <= max
    requires -ITEM_HEIGHT / 2 <= offset < (max - min) * ITEM_HEIGHT + ITEM_HEIGHT / 2
    ensures var r := Snap(offset, min, max);
      && (r.value - min) * ITEM_HEIGHT - ITEM_HEIGHT / 2 <= offset < (r.value - min) * ITEM_HEIGHT + ITEM_HEIGHT / 2
      && (r.correction.None? <==> offset % ITEM_HEIGHT == 0)
  {
  }

  /** Past either end the picker stops at the first or last value. */
  lemma SnapClampsEnds(offset: int, min: int, max: int)
    requires min <= max
    ensures offset < -ITEM_HEIGHT / 2 ==> Snap(offset, min, max).value == min
    ensures offset >= (max - min) * ITEM_HEIGHT + ITEM_HEIGHT / 2 ==> Snap(offset, min, max).value == max
  {
  }

  /** A padded label is a numeral of at least `padStart` characters whose
      value is the row's value; an unpadded one is exactly `String(n)`. */
  lemma LabelValue(n: nat, padStart: int)
    ensures AllDigits(Label(n, padStart))
    ensures DigitsValue(Label(n, padStart)) == n
    ensures |Label(n, padStart)| == Max(|NatToString(n)|, padStart)
  {
    var s := NatToString(n);
    if padStart > |s| {
      var z := padStart - |s|;
      assert Label(n, padStart) == seq(z, _ => '0') + s;
      DigitsValueLeadingZeros(z, s);
    }
  }

  /** The hours picker (0..23, padded to 2) shows two-digit labels. */
  lemma HourLabelsTwoDigits(n: nat)
    requires n <= 23
    ensures |Label(n, 2)| == 2 && DigitsValue(Label(n, 2)) == n
  {
    LabelValue(n, 2);
  }
}
