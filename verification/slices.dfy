/** The hour slices a departure query fetches (`_iter_time_slices`): every
    whole hour from the hour holding the start to the hour holding the end,
    each named the way the plan resource expects (`YYMMDD`, `HH`). A slice
    is its hour index, the number of whole hours since the epoch. */
module Slices {
  import opened Common
  import opened Calendar
  import opened Text
  import opened Times

  /** The hour holding `t`: `t` with minutes and seconds cut off, counted in
      hours. */
  function HourOf(t: Time): nat {
    t / SecondsPerHour
  }

  /** The hours `first`, `first + 1`, ..., `last`; none when `first > last`. */
  function HoursFrom(first: nat, last: nat): (r: seq<nat>)
    ensures first <= last ==> |r| == last - first + 1
    ensures first > last ==> r == []
    ensures forall i | 0 <= i < |r| :: r[i] == first + i
    decreases last + 1 - first
  {
    if first > last then [] else [first] + HoursFrom(first + 1, last)
  }

  /** The slices of `[start, end]`, in increasing order. */
  function HourSlices(start: Time, end: Time): (r: seq<nat>)
    ensures start <= end ==> |r| == HourOf(end) - HourOf(start) + 1
    ensures start <= end ==> r[0] == HourOf(start) && r[|r| - 1] == HourOf(end)
    ensures forall i | 0 <= i < |r| - 1 :: r[i + 1] == r[i] + 1
  {
    assert start <= end ==> HourOf(start) <= HourOf(end) by {
      if start <= end {
        HourMonotone(start, end);
      }
    }
    HoursFrom(HourOf(start), HourOf(end))
  }

  lemma HourMonotone(a: Time, b: Time)
    requires a <= b
    ensures HourOf(a) <= HourOf(b)
  {
  }

  /** Every instant of the interval lies in one of its slices, and every
      slice shares at least one instant with the interval. */
  lemma SlicesCover(start: Time, end: Time)
    requires start <= end
    ensures forall t | start <= t <= end :: HourOf(t) in HourSlices(start, end)
    ensures forall h | h in HourSlices(start, end) ::
      h * SecondsPerHour <= end && start < (h + 1) * SecondsPerHour
  {
    var r := HourSlices(start, end);
    forall t | start <= t <= end
      ensures HourOf(t) in r
    {
      HourMonotone(start, t);
      HourMonotone(t, end);
      assert r[HourOf(t) - HourOf(start)] == HourOf(t);
    }
  }

  /** A slice as the plan resource names it: the date label `YYMMDD` and
      the hour label `HH`. */
  type Label = (string, string)

  /** `_iter_time_slices`: the labels of the slices of `[start, end]`, in
      order. */
  function TimeSlices(start: Time, end: Time): (r: seq<Label>)
    ensures |r| == |HourSlices(start, end)|
    ensures forall i | 0 <= i < |r| :: r[i] == SliceLabel(HourSlices(start, end)[i])
  {
    var hours := HourSlices(start, end);
    seq(|hours|, i requires 0 <= i < |hours| => SliceLabel(hours[i]))
  }

  /** `strftime("%y%m%d")` and `strftime("%H")` of the slice's first
      instant. */
  function SliceLabel(h: nat): (r: Label)
    ensures |r.0| == 6 && AllDigits(r.0)
    ensures |r.1| == 2 && AllDigits(r.1)
  {
    var d := FromSeconds(h * SecondsPerHour);
    Pad2(d.year % 100); Pad2(d.month); Pad2(d.day); Pad2(d.hour);
    DigitsConcat(Decimal(d.year % 100, 2), Decimal(d.month, 2));
    DigitsConcat(Decimal(d.year % 100, 2) + Decimal(d.month, 2), Decimal(d.day, 2));
    (Decimal(d.year % 100, 2) + Decimal(d.month, 2) + Decimal(d.day, 2), Decimal(d.hour, 2))
  }

  /** Within 1969..2068, where two-digit years are unambiguous, a slice's
      labels name exactly its hour: read back as `YYMMDDHH00` they give the
      slice's first instant. */
  lemma SliceLabelNamesHour(h: nat)
    requires 1969 <= FromSeconds(h * SecondsPerHour).year <= 2068
    ensures var (date, hour) := SliceLabel(h);
      DecodeFixed(date + hour + "00") == Some(h * SecondsPerHour)
  {
    var t := h * SecondsPerHour;
    var d := FromSeconds(t);
    assert d.minute == 0 && d.second == 0 by {
      HourStartAligned(h);
      FieldsOfAligned(t);
    }
    LabelsFormatHour(h);
    DecodeFormatted(d, 2);
  }

  /** A slice starts on a whole hour. */
  lemma HourStartAligned(h: nat)
    ensures (h * SecondsPerHour) % SecondsPerHour == 0
  {
    var t := h * SecondsPerHour;
    assert t == h * 3600 + 0;
  }

  /** The labels followed by `00` are the slice start written as
      `YYMMDDHHMM`. */
  lemma LabelsFormatHour(h: nat)
    requires FromSeconds(h * SecondsPerHour).minute == 0
    ensures SliceLabel(h).0 + SliceLabel(h).1 + "00" == FormatMinutes(FromSeconds(h * SecondsPerHour), 2)
  {
    assert Decimal(0, 2) == "00" by {
      assert Decimal(0, 2) == Decimal(0, 1) + [DigitChar(0)];
    }
  }

  /** Distinct slices of those years have distinct labels, so no two of them
      share a plan cache entry. */
  lemma SliceLabelInjective(h1: nat, h2: nat)
    requires 1969 <= FromSeconds(h1 * SecondsPerHour).year <= 2068
    requires 1969 <= FromSeconds(h2 * SecondsPerHour).year <= 2068
    requires SliceLabel(h1) == SliceLabel(h2)
    ensures h1 == h2
  {
    SliceLabelNamesHour(h1);
    SliceLabelNamesHour(h2);
  }
}
