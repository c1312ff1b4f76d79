/**
 * The calendar grid of the timeline (`src/components/ui/Timeline/context.tsx`): the range is
 * widened to whole weeks Sunday to Saturday (plus one extra week), each day of the grid gets the
 * number of relapses on it and a colour class, and the cells come out newest first when mirrored.
 *
 * Instants are milliseconds and calendar days are day numbers: day `d` is the day starting at
 * `d * FormatTime.MS_PER_DAY`, day 0 being Thursday 1 January 1970.
 */
module Timeline {
  import opened Wrappers
  import FormatTime

  /** The calendar day an instant falls on (`format(date, 'yyyy-MM-dd')` and `isSameDay`). */
  function DayOf(t: int): int {
    t / FormatTime.MS_PER_DAY
  }

  /** The first instant of a day: the dates `eachDayOfInterval` yields. */
  function StartOfDay(day: int): int {
    day * FormatTime.MS_PER_DAY
  }

  /** Day of the week, 0 for Sunday to 6 for Saturday (`getDay`). */
  function Weekday(day: int): (w: int)
    ensures 0 <= w < 7
  {
    (day + 4) % 7
  }

  /** `previousSunday`: the Sunday strictly before the day. */
  function PreviousSunday(day: int): int {
    var delta := Weekday(day);
    day - (if delta <= 0 then delta + 7 else delta)
  }

  /** `nextSaturday`: the Saturday strictly after the day. */
  function NextSaturday(day: int): int {
    var delta := 6 - Weekday(day);
    day + (if delta <= 0 then delta + 7 else delta)
  }

  /** `startSunday`: the first day of the grid, the latest Sunday on or before the range's first day. */
  function StartSunday(first: int): (s: int)
    ensures Weekday(s) == 0 && first - 6 <= s <= first
  {
    if Weekday(first) == 0 then first else PreviousSunday(first)
  }

  /** No Sunday lies strictly after `startSunday` and on or before the first day: it is the latest one. */
  lemma StartSundayIsLatest(first: int, d: int)
    requires StartSunday(first) < d <= first
    ensures Weekday(d) != 0
  {
  }

  /**
   * `endSaturday`: the last day of the grid, one week after the first Saturday on or after the
   * range's last day.
   */
  function EndSaturday(last: int): (e: int)
    ensures Weekday(e) == 6 && last + 7 <= e <= last + 13
  {
    var saturday := if Weekday(last) == 6 then last else NextSaturday(last);
    NextSaturday(saturday)
  }

  /**
   * No Saturday lies on or after the last day and before the week that `endSaturday` closes:
   * the grid ends one week after the first Saturday on or after the last day.
   */
  lemma EndSaturdayIsFirstPlusWeek(last: int, d: int)
    requires last <= d < EndSaturday(last) - 7
    ensures Weekday(d) != 6
  {
  }

  /** The number of instants in `data` that fall on `day`. */
  function CountOnDay(data: seq<int>, day: int): nat {
    if data == [] then 0
    else CountOnDay(data[..|data| - 1], day) + (if DayOf(data[|data| - 1]) == day then 1 else 0)
  }

  /** `frequencyMap[key] || 0`. */
  function Frequency(m: map<int, nat>, day: int): nat {
    if day in m then m[day] else 0
  }

  /** The sum of the counts held in a map. */
  ghost function SumValues(m: map<int, nat>): nat
    decreases |m|
  {
    if |m| == 0 then 0
    else
      NonEmptyHasKey(m);
      var k :| k in m;
      m[k] + SumValues(m - {k})
  }

  lemma NonEmptyHasKey(m: map<int, nat>)
    requires |m| > 0
    ensures exists k :: k in m
  {
    if !exists k :: k in m {
      assert false;
    }
  }

  /** Any key can be taken out first when summing. */
  lemma {:induction false} SumValuesRemove(m: map<int, nat>, k: int)
    requires k in m
    ensures SumValues(m) == m[k] + SumValues(m - {k})
    decreases |m|
  {
    var j :| j in m && SumValues(m) == m[j] + SumValues(m - {j});
    if j != k {
      RemoveTwo(m, j, k);
      SumValuesRemove(m - {j}, k);
      SumValuesRemove(m - {k}, j);
    }
  }

  /** Taking two distinct keys out of a map, in either order, gives the same map. */
  lemma RemoveTwo(m: map<int, nat>, j: int, k: int)
    requires j in m && k in m && j != k
    ensures k in m - {j} && j in m - {k} && |m - {j}| == |m| - 1 && |m - {k}| == |m| - 1
    ensures (m - {j}) - {k} == (m - {k}) - {j}
  {
    assert |m - {j}| == |m| - 1;
    assert |m - {k}| == |m| - 1;
    assert (m - {j}) - {k} == (m - {k}) - {j};
  }

  /** Counting one more instant on a day adds one to the sum. */
  lemma SumValuesIncrement(m: map<int, nat>, k: int)
    ensures SumValues(m[k := Frequency(m, k) + 1]) == SumValues(m) + 1
  {
    var m' := m[k := Frequency(m, k) + 1];
    SumValuesRemove(m', k);
    if k in m {
      SumValuesRemove(m, k);
      assert m' - {k} == m - {k};
    } else {
      assert m' - {k} == m;
    }
  }

  /**
   * The dictionary `frequencyMap` builds: `data.reduce` keyed by calendar day, adding one per
   * instant, in order.
   */
  function FrequencyOf(data: seq<int>): (m: map<int, nat>)
    ensures forall k :: k in m ==> m[k] > 0
    ensures |data| > 0 ==> DayOf(data[|data| - 1]) in m
  {
    if data == [] then map[]
    else
      var m := FrequencyOf(data[..|data| - 1]);
      var key := DayOf(data[|data| - 1]);
      m[key := Frequency(m, key) + 1]
  }

  /** Every day maps to the number of instants on it, and only days with some instant are keys. */
  lemma {:induction false} FrequencyCounts(data: seq<int>, day: int)
    ensures Frequency(FrequencyOf(data), day) == CountOnDay(data, day)
    ensures day in FrequencyOf(data) <==> CountOnDay(data, day) > 0
  {
    if data != [] {
      FrequencyCounts(data[..|data| - 1], day);
    }
  }

  /** The counts add up to the number of instants. */
  lemma {:induction false} FrequencySum(data: seq<int>)
    ensures SumValues(FrequencyOf(data)) == |data|
  {
    if data != [] {
      var init := data[..|data| - 1];
      FrequencySum(init);
      SumValuesIncrement(FrequencyOf(init), DayOf(data[|data| - 1]));
    }
  }

  /** `frequencyMap`: the `reduce` loop, one instant at a time. */
  method FrequencyMap(data: seq<int>) returns (m: map<int, nat>)
    ensures m == FrequencyOf(data)
  {
    m := map[];
    for i := 0 to |data|
      invariant m == FrequencyOf(data[..i])
    {
      var key := DayOf(data[i]);
      m := m[key := Frequency(m, key) + 1];
      assert data[..i + 1][..i] == data[..i];
    }
    assert data[..|data|] == data;
  }

  /** The colour class of a cell: not drawn, a day with relapses, or a clean day. */
  datatype Color = Transparent | RelapseDay | CleanDay

  /**
   * `getCellBackgroundColor`: transparent for a day after `now` or outside the range (compared by
   * calendar day at the ends); otherwise a relapse day when some relapse fell on it and the day
   * has begun before `now`; otherwise clean.
   */
  function CellColor(day: int, frequency: nat, rangeStart: int, rangeEnd: int, now: int): (c: Color)
    ensures c == RelapseDay ==> frequency != 0 && StartOfDay(day) < now
    ensures StartOfDay(day) > now ==> c == Transparent
  {
    var d := StartOfDay(day);
    var withinRange :=
      (d < rangeEnd || DayOf(d) == DayOf(rangeEnd)) && (d > rangeStart || DayOf(d) == DayOf(rangeStart));
    var future := d > now;
    var past := d < now;
    if future || !withinRange then Transparent
    else if past && frequency != 0 then RelapseDay
    else CleanDay
  }

  /**
   * A cell is transparent exactly when its day is after today or outside the range's days, both
   * ends included; it shows relapses exactly when it is visible, has some, and has begun.
   */
  lemma CellColorClassification(day: int, frequency: nat, rangeStart: int, rangeEnd: int, now: int)
    ensures CellColor(day, frequency, rangeStart, rangeEnd, now) == Transparent <==>
              day > DayOf(now) || day < DayOf(rangeStart) || day > DayOf(rangeEnd)
    ensures CellColor(day, frequency, rangeStart, rangeEnd, now) == RelapseDay <==>
              DayOf(rangeStart) <= day <= DayOf(rangeEnd) && day <= DayOf(now) &&
              frequency != 0 && StartOfDay(day) < now
  {
    var d := StartOfDay(day);
    assert DayOf(d) == day;
    assert d > now <==> day > DayOf(now);
    assert (d < rangeEnd || DayOf(d) == DayOf(rangeEnd)) <==> day <= DayOf(rangeEnd);
    assert (d > rangeStart || DayOf(d) == DayOf(rangeStart)) <==> day >= DayOf(rangeStart);
  }

  /** One grid cell (`dayProgress`, a display fraction, is not modelled). */
  datatype Cell = Cell(day: int, color: Color, frequency: nat)

  function CellFor(day: int, rangeStart: int, rangeEnd: int, data: seq<int>, now: int): Cell {
    var frequency := CountOnDay(data, day);
    Cell(day, CellColor(day, frequency, rangeStart, rangeEnd, now), frequency)
  }

  /** The cells of the grid in day order, one per day from `startSunday` to `endSaturday`. */
  function Cells(rangeStart: int, rangeEnd: int, data: seq<int>, now: int): (cells: seq<Cell>)
    ensures |cells| % 7 == 0
  {
    var first := StartSunday(DayOf(rangeStart));
    var last := EndSaturday(DayOf(rangeEnd));
    if last < first then []
    else
      WholeWeeks(first, last);
      seq(last - first + 1, i => CellFor(first + i, rangeStart, rangeEnd, data, now))
  }

  /**
   * The grid is whole weeks: a multiple of seven cells, at least two weeks when the range is not
   * inverted, starting on a Sunday no later than the range's first day and ending on a Saturday
   * at least a week after its last day.
   */
  lemma GridIsWholeWeeks(rangeStart: int, rangeEnd: int, data: seq<int>, now: int)
    ensures var cells := Cells(rangeStart, rangeEnd, data, now);
            |cells| % 7 == 0 &&
            (DayOf(rangeStart) <= DayOf(rangeEnd) ==> |cells| >= 14) &&
            (cells != [] ==>
               Weekday(cells[0].day) == 0 && Weekday(cells[|cells| - 1].day) == 6 &&
               cells[0].day <= DayOf(rangeStart) && cells[|cells| - 1].day >= DayOf(rangeEnd) + 7 &&
               cells[0].day == StartSunday(DayOf(rangeStart)) && cells[|cells| - 1].day == EndSaturday(DayOf(rangeEnd)))
  {
    var cells := Cells(rangeStart, rangeEnd, data, now);
    var first := StartSunday(DayOf(rangeStart));
    var last := EndSaturday(DayOf(rangeEnd));
    CellDays(rangeStart, rangeEnd, data, now);
    if first <= last {
      WholeWeeks(first, last);
      assert cells[|cells| - 1].day == last;
    }
  }

  /**
   * The cells are consecutive days; each carries the number of relapses on its day and the colour
   * class of that day.
   */
  lemma GridCellContents(rangeStart: int, rangeEnd: int, data: seq<int>, now: int)
    ensures var cells := Cells(rangeStart, rangeEnd, data, now);
            (forall i :: 0 < i < |cells| ==> cells[i].day == cells[i - 1].day + 1) &&
            (forall i :: 0 <= i < |cells| ==>
               cells[i].frequency == CountOnDay(data, cells[i].day) &&
               cells[i].color == CellColor(cells[i].day, cells[i].frequency, rangeStart, rangeEnd, now))
  {
    CellDays(rangeStart, rangeEnd, data, now);
  }

  /** From a Sunday to a later Saturday there is a whole number of weeks. */
  lemma WholeWeeks(first: int, last: int)
    requires Weekday(first) == 0 && Weekday(last) == 6 && first <= last
    ensures (last - first + 1) % 7 == 0
  {
    var a, b := (first + 4) / 7, (last + 4) / 7;
    assert first + 4 == 7 * a;
    assert last + 4 == 7 * b + 6;
    assert last - first + 1 == 7 * (b - a + 1);
  }

  /** Cell `i` of the grid is day `startSunday + i`, and the grid ends on `endSaturday`. */
  lemma CellDays(rangeStart: int, rangeEnd: int, data: seq<int>, now: int)
    ensures var cells := Cells(rangeStart, rangeEnd, data, now);
            var first := StartSunday(DayOf(rangeStart));
            var last := EndSaturday(DayOf(rangeEnd));
            |cells| == (if last < first then 0 else last - first + 1) &&
            forall i :: 0 <= i < |cells| ==> cells[i] == CellFor(first + i, rangeStart, rangeEnd, data, now)
  {
  }

  /** The reverse of a sequence. */
  function Reversed<T>(s: seq<T>): (r: seq<T>)
    ensures |r| == |s|
  {
    if s == [] then [] else Reversed(s[1..]) + [s[0]]
  }

  /** Element `k` of the reverse is element `|s| - 1 - k` of the original. */
  lemma {:induction false} ReversedAt<T>(s: seq<T>, k: nat)
    requires k < |s|
    ensures Reversed(s)[k] == s[|s| - 1 - k]
  {
    if k < |s| - 1 {
      ReversedAt(s[1..], k);
    }
  }

  /** Mirrored cells come out newest day first. */
  lemma MirroredCellsDescend(rangeStart: int, rangeEnd: int, data: seq<int>, now: int)
    ensures var cells := Reversed(Cells(rangeStart, rangeEnd, data, now));
            forall i, j :: 0 <= i < j < |cells| ==> cells[i].day > cells[j].day
  {
    var ascending := Cells(rangeStart, rangeEnd, data, now);
    var cells := Reversed(ascending);
    CellDays(rangeStart, rangeEnd, data, now);
    forall i, j | 0 <= i < j < |cells| ensures cells[i].day > cells[j].day {
      ReversedAt(ascending, i);
      ReversedAt(ascending, j);
    }
  }

  /** `cells.reverse()`: reverses the array in place. */
  method ReverseCells(a: array<Cell>)
    modifies a
    ensures a[..] == Reversed(old(a[..]))
  {
    ghost var s := a[..];
    var n := a.Length;
    var i := 0;
    while i < n / 2
      invariant 0 <= i <= n / 2
      invariant forall k :: 0 <= k < i ==> a[k] == s[n - 1 - k]
      invariant forall k :: n - i <= k < n ==> a[k] == s[n - 1 - k]
      invariant forall k :: i <= k < n - i ==> a[k] == s[k]
    {
      a[i], a[n - 1 - i] := a[n - 1 - i], a[i];
      i := i + 1;
    }
    MirrorIsReversed(s, a[..]);
  }

  /** A sequence holding the elements of `s` back to front is the reverse of `s`. */
  lemma MirrorIsReversed<T>(s: seq<T>, r: seq<T>)
    requires |r| == |s|
    requires forall k :: 0 <= k < |s| ==> r[k] == s[|s| - 1 - k]
    ensures r == Reversed(s)
  {
    forall k | 0 <= k < |s| ensures r[k] == Reversed(s)[k] {
      ReversedAt(s, k);
    }
  }

  /** Builds the grid into a new array, one cell per day, counting days with `frequencyMap`. */
  method GridCells(rangeStart: int, rangeEnd: int, data: seq<int>, now: int) returns (cells: array<Cell>)
    ensures fresh(cells)
    ensures cells[..] == Cells(rangeStart, rangeEnd, data, now)
  {
    var frequencyMap := FrequencyMap(data);
    var first := StartSunday(DayOf(rangeStart));
    var last := EndSaturday(DayOf(rangeEnd));
    var n := if last < first then 0 else last - first + 1;
    ghost var expected := Cells(rangeStart, rangeEnd, data, now);
    CellDays(rangeStart, rangeEnd, data, now);
    cells := new Cell[n];
    for i := 0 to n
      invariant cells[..i] == expected[..i]
    {
      var day := first + i;
      var frequency := Frequency(frequencyMap, day);
      FrequencyCounts(data, day);
      var cell := Cell(day, CellColor(day, frequency, rangeStart, rangeEnd, now), frequency);
      assert cell == expected[i];
      cells[i] := cell;
      assert cells[..i + 1] == cells[..i] + [cell];
    }
    assert cells[..] == cells[..n];
  }

  /** What the timeline is given. The props type declares no `mirrored`, so it is usually absent. */
  datatype TimelineProps = TimelineProps(
    rangeStart: int,
    rangeEnd: int,
    data: seq<int>,
    mirrored: Option<bool>,
    invertColor: Option<bool>)

  /** JavaScript's `x || fallback` on an optional boolean. */
  function OrElse(x: Option<bool>, fallback: bool): bool {
    if x == Some(true) then true else fallback
  }

  /** The timeline provider's state. */
  class TimelineState {
    var props: TimelineProps
    var rangeStart: int
    var rangeEnd: int
    var data: seq<int>
    var mirrored: bool
    var invertColor: bool

    /** The initial state: `mirrored` starts true whatever the props say (`props.mirrored || true`). */
    constructor (props: TimelineProps)
      ensures this.props == props
      ensures rangeStart == props.rangeStart && rangeEnd == props.rangeEnd && data == props.data
      ensures mirrored
      ensures invertColor == (props.invertColor == Some(true))
    {
      this.props := props;
      rangeStart := props.rangeStart;
      rangeEnd := props.rangeEnd;
      data := props.data;
      mirrored := OrElse(props.mirrored, true);
      invertColor := OrElse(props.invertColor, false);
    }

    /**
     * A re-render with new props: the state keeps the values it took when the provider mounted
     * (`useState` reads its argument only once), while `CellsData` counts the new props' data.
     */
    method SetProps(p: TimelineProps)
      modifies this`props
      ensures props == p
      ensures rangeStart == old(rangeStart) && rangeEnd == old(rangeEnd) && data == old(data)
      ensures mirrored == old(mirrored) && invertColor == old(invertColor)
    {
      props := p;
    }

    /** `setData`: changes the `data` state only. */
    method SetData(d: seq<int>)
      modifies this`data
      ensures data == d
    {
      data := d;
    }

    /** `setRange`. */
    method SetRange(start: int, end: int)
      modifies this`rangeStart, this`rangeEnd
      ensures rangeStart == start && rangeEnd == end
    {
      rangeStart, rangeEnd := start, end;
    }

    /** `setMirrored`. */
    method SetMirrored(m: bool)
      modifies this`mirrored
      ensures mirrored == m
    {
      mirrored := m;
    }

    /**
     * `cellsData`: the grid for the current range, with frequencies counted from the PROPS' data
     * (not the `data` state), reversed in place when mirrored.
     */
    method CellsData(now: int) returns (cells: array<Cell>)
      ensures fresh(cells)
      ensures cells[..] == if mirrored then Reversed(Cells(rangeStart, rangeEnd, props.data, now))
                           else Cells(rangeStart, rangeEnd, props.data, now)
    {
      cells := GridCells(rangeStart, rangeEnd, props.data, now);
      if mirrored {
        ReverseCells(cells);
      }
    }
  }
}
