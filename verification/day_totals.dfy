/**
 * The day view of main.py (`MainWindow.load_day_data`): the stored hour
 * rows of one day are folded into the day's visitor total, count-weighted
 * average wait and stay times, the maxima, and one slot per hour of the
 * day for the chart and the hover heatmap.
 */
module DayTotals {
  import opened Wrappers
  import SU = StorageUpdate

  /** One row of `get_day_data`: its hour, the counters it uses, and its heatmap and frame. */
  datatype DayRow = DayRow(hour: int, count: int, waitTime: real, stayTime: real, heatmap: SU.Value, frame: SU.Value)

  const HoursPerDay: nat := 24

  /**
   * The list position `h` names in a 24-slot Python list: a negative
   * index counts from the end, and one outside `-24..23` raises
   * `IndexError`.
   */
  function Slot(h: int): (r: Option<nat>)
    ensures r.Some? <==> -(HoursPerDay as int) <= h < HoursPerDay
    ensures r.Some? ==> r.value < HoursPerDay && (r.value == h || r.value == h + HoursPerDay)
  {
    if 0 <= h < HoursPerDay then Some(h)
    else if -(HoursPerDay as int) <= h < 0 then Some(h + HoursPerDay)
    else None
  }

  predicate AllSlotted(rows: seq<DayRow>) {
    forall i :: 0 <= i < |rows| ==> Slot(rows[i].hour).Some?
  }

  // ---------------------------------------------------------------- the running totals

  /** `total_count`, `total_wait_time`, `total_stay_time`, `max_count`, `max_wait_time`, `max_stay_time`. */
  datatype Totals = Totals(count: int, wait: real, stay: real, maxCount: int, maxWait: real, maxStay: real)

  const NoTotals: Totals := Totals(0, 0.0, 0.0, 0, 0.0, 0.0)

  /** A row's time weighted by its count, as in `c * w`. */
  function Weighted(count: int, time: real): real { count as real * time }

  function Max(a: int, b: int): int { if a < b then b else a }

  function MaxReal(a: real, b: real): real { if a < b then b else a }

  /** One row on the running totals: its count is added, its times weighted by its count, and the maxima raised. */
  function AddRow(t: Totals, row: DayRow): Totals {
    Totals(t.count + row.count, t.wait + Weighted(row.count, row.waitTime), t.stay + Weighted(row.count, row.stayTime),
           Max(t.maxCount, row.count), MaxReal(t.maxWait, row.waitTime), MaxReal(t.maxStay, row.stayTime))
  }

  /** The running totals once `rows` have been folded in, in order. */
  function Fold(rows: seq<DayRow>): Totals {
    if rows == [] then NoTotals else AddRow(Fold(rows[..|rows| - 1]), rows[|rows| - 1])
  }

  function SumCounts(rows: seq<DayRow>): int {
    if rows == [] then 0 else SumCounts(rows[..|rows| - 1]) + rows[|rows| - 1].count
  }

  function WeightedWait(rows: seq<DayRow>): real {
    if rows == [] then 0.0 else WeightedWait(rows[..|rows| - 1]) + Weighted(rows[|rows| - 1].count, rows[|rows| - 1].waitTime)
  }

  function WeightedStay(rows: seq<DayRow>): real {
    if rows == [] then 0.0 else WeightedStay(rows[..|rows| - 1]) + Weighted(rows[|rows| - 1].count, rows[|rows| - 1].stayTime)
  }

  /**
   * The fold agrees with the reference sums, and its maxima bound every
   * row and start from zero: `max_count` is at least 0 and at least each
   * row's count, and equals 0 or some row's count; likewise the times.
   */
  lemma {:induction false} FoldMeaning(rows: seq<DayRow>)
    ensures Fold(rows).count == SumCounts(rows)
    ensures Fold(rows).wait == WeightedWait(rows) && Fold(rows).stay == WeightedStay(rows)
    ensures Fold(rows).maxCount >= 0 && Fold(rows).maxWait >= 0.0 && Fold(rows).maxStay >= 0.0
    ensures forall i :: 0 <= i < |rows| ==>
      rows[i].count <= Fold(rows).maxCount && rows[i].waitTime <= Fold(rows).maxWait && rows[i].stayTime <= Fold(rows).maxStay
    ensures Fold(rows).maxCount == 0 || exists i :: 0 <= i < |rows| && rows[i].count == Fold(rows).maxCount
    decreases |rows|
  {
    if rows != [] {
      var init := rows[..|rows| - 1];
      FoldMeaning(init);
      if Fold(rows).maxCount != 0 && Fold(rows).maxCount != rows[|rows| - 1].count {
        var i :| 0 <= i < |init| && init[i].count == Fold(init).maxCount;
        assert rows[i] == init[i];
      }
    }
  }

  /**
   * With no negative count, the count-weighted wait of a day is at most
   * its total count times its longest wait, so the average wait never
   * exceeds the longest one; likewise the stay.
   */
  lemma {:induction false} WeightedBelowMax(rows: seq<DayRow>, maxWait: real, maxStay: real)
    requires forall i :: 0 <= i < |rows| ==> rows[i].count >= 0 && rows[i].waitTime <= maxWait && rows[i].stayTime <= maxStay
    ensures WeightedWait(rows) <= SumCounts(rows) as real * maxWait
    ensures WeightedStay(rows) <= SumCounts(rows) as real * maxStay
    decreases |rows|
  {
    if rows != [] {
      var init, last := rows[..|rows| - 1], rows[|rows| - 1];
      WeightedBelowMax(init, maxWait, maxStay);
      ScaledBelow(last.count as real, last.waitTime, maxWait);
      ScaledBelow(last.count as real, last.stayTime, maxStay);
    }
  }

  lemma ScaledBelow(c: real, x: real, m: real)
    requires c >= 0.0 && x <= m
    ensures c * x <= c * m
  {
  }

  // ---------------------------------------------------------------- one slot per hour

  /** `counts`, `wait_time`, `stay_time`, `heatmap_hour` and `frame_hour`: 24 slots each. */
  datatype Hours = Hours(counts: seq<int>, waitTimes: seq<real>, stayTimes: seq<real>, heatmaps: seq<SU.Value>, frames: seq<SU.Value>)

  predicate HoursShaped(h: Hours) {
    |h.counts| == |h.waitTimes| == |h.stayTimes| == |h.heatmaps| == |h.frames| == HoursPerDay
  }

  /** Every slot empty: zero counts and times, no heatmap and no frame. */
  function EmptyHours(): (h: Hours)
    ensures HoursShaped(h)
  {
    Hours(seq(HoursPerDay, _ => 0), seq(HoursPerDay, _ => 0.0), seq(HoursPerDay, _ => 0.0),
          seq(HoursPerDay, _ => SU.NoneValue), seq(HoursPerDay, _ => SU.NoneValue))
  }

  /** A row written into its hour's slot of every list. */
  function Place(h: Hours, s: nat, row: DayRow): (r: Hours)
    requires HoursShaped(h) && s < HoursPerDay
    ensures HoursShaped(r)
  {
    Hours(h.counts[s := row.count], h.waitTimes[s := row.waitTime], h.stayTimes[s := row.stayTime],
          h.heatmaps[s := row.heatmap], h.frames[s := row.frame])
  }

  /** The slots once `rows` have been written in, in order. */
  function Placed(rows: seq<DayRow>): (h: Hours)
    requires AllSlotted(rows)
    ensures HoursShaped(h)
  {
    if rows == [] then EmptyHours()
    else Place(Placed(rows[..|rows| - 1]), Slot(rows[|rows| - 1].hour).value, rows[|rows| - 1])
  }

  /** The last row of `rows` that lands in slot `s`, if any. */
  function LastIn(rows: seq<DayRow>, s: nat): (r: Option<DayRow>)
    ensures r.Some? ==> r.value in rows && Slot(r.value.hour) == Some(s)
  {
    if rows == [] then None
    else if Slot(rows[|rows| - 1].hour) == Some(s) then Some(rows[|rows| - 1])
    else LastIn(rows[..|rows| - 1], s)
  }

  /** Each hour's slot holds the last row for that hour; an hour without rows keeps 0 and `None`. */
  lemma {:induction false} PlacedIsLast(rows: seq<DayRow>, s: nat)
    requires AllSlotted(rows) && s < HoursPerDay
    ensures var r := LastIn(rows, s);
      Placed(rows).counts[s] == (if r.Some? then r.value.count else 0)
      && Placed(rows).waitTimes[s] == (if r.Some? then r.value.waitTime else 0.0)
      && Placed(rows).stayTimes[s] == (if r.Some? then r.value.stayTime else 0.0)
      && Placed(rows).heatmaps[s] == (if r.Some? then r.value.heatmap else SU.NoneValue)
      && Placed(rows).frames[s] == (if r.Some? then r.value.frame else SU.NoneValue)
    decreases |rows|
  {
    if rows != [] {
      PlacedIsLast(rows[..|rows| - 1], s);
    }
  }

  // ---------------------------------------------------------------- load_day_data

  /** What the day view shows. */
  datatype DayView =
    | NoInformation
    | IndexError
    | DayView(totals: Totals, avgWait: real, avgStay: real, hours: Hours)

  /** `total / total_count`, or 0 for a day without visitors. */
  function Average(total: real, count: int): real {
    if count != 0 then total / count as real else 0.0
  }

  /** One more row of the loop: the fold and the slots of the first `i + 1` rows extend those of the first `i`. */
  lemma PrefixStep(rows: seq<DayRow>, i: nat)
    requires i < |rows|
    ensures Fold(rows[..i + 1]) == AddRow(Fold(rows[..i]), rows[i])
    ensures Slot(rows[i].hour).None? ==> !AllSlotted(rows)
    ensures AllSlotted(rows[..i]) && Slot(rows[i].hour).Some? ==>
      AllSlotted(rows[..i + 1]) && Placed(rows[..i + 1]) == Place(Placed(rows[..i]), Slot(rows[i].hour).value, rows[i])
  {
    assert rows[..i + 1][..i] == rows[..i];
  }

  /**
   * `load_day_data` on the rows of one day: no rows show "No
   * information"; an hour outside the list's range raises; otherwise the
   * totals are the fold of every row, the averages are count-weighted
   * (both 0 when no visitor was counted) and each hour's slot holds its
   * last row.
   */
  method LoadDayData(rows: seq<DayRow>) returns (view: DayView)
    ensures rows == [] <==> view.NoInformation?
    ensures view.IndexError? <==> rows != [] && !AllSlotted(rows)
    ensures view.DayView? ==> AllSlotted(rows) && view.totals == Fold(rows) && view.hours == Placed(rows)
    ensures view.DayView? ==>
      (view.totals.count != 0 ==>
         view.avgWait * view.totals.count as real == view.totals.wait && view.avgStay * view.totals.count as real == view.totals.stay)
      && (view.totals.count == 0 ==> view.avgWait == 0.0 && view.avgStay == 0.0)
  {
    if rows == [] {
      return NoInformation;
    }
    var totalCount, totalWait, totalStay := 0, 0.0, 0.0;
    var maxCount, maxWait, maxStay := 0, 0.0, 0.0;
    var hours := EmptyHours();
    var i := 0;
    while i < |rows|
      invariant i <= |rows| && AllSlotted(rows[..i])
      invariant Totals(totalCount, totalWait, totalStay, maxCount, maxWait, maxStay) == Fold(rows[..i])
      invariant hours == Placed(rows[..i])
    {
      var row := rows[i];
      var s := Slot(row.hour);
      PrefixStep(rows, i);
      if s.None? {
        return IndexError;
      }
      hours := Place(hours, s.value, row);
      totalCount := totalCount + row.count;
      totalWait := totalWait + Weighted(row.count, row.waitTime);
      totalStay := totalStay + Weighted(row.count, row.stayTime);
      maxCount := Max(maxCount, row.count);
      maxWait := MaxReal(maxWait, row.waitTime);
      maxStay := MaxReal(maxStay, row.stayTime);
      i := i + 1;
    }
    assert rows[..|rows|] == rows;
    var totals := Totals(totalCount, totalWait, totalStay, maxCount, maxWait, maxStay);
    view := DayView(totals, Average(totalWait, totalCount), Average(totalStay, totalCount), hours);
  }

  /**
   * With no negative count, a day with visitors has an average wait no
   * longer than its longest wait and an average stay no longer than its
   * longest stay.
   */
  lemma AverageBelowMax(rows: seq<DayRow>)
    requires forall i :: 0 <= i < |rows| ==> rows[i].count >= 0
    requires SumCounts(rows) != 0
    ensures Average(Fold(rows).wait, Fold(rows).count) <= Fold(rows).maxWait
    ensures Average(Fold(rows).stay, Fold(rows).count) <= Fold(rows).maxStay
  {
    var t := Fold(rows);
    FoldMeaning(rows);
    WeightedBelowMax(rows, t.maxWait, t.maxStay);
    CountsNonNegative(rows);
    DivideBelow(t.wait, t.count as real, t.maxWait);
    DivideBelow(t.stay, t.count as real, t.maxStay);
  }

  lemma {:induction false} CountsNonNegative(rows: seq<DayRow>)
    requires forall i :: 0 <= i < |rows| ==> rows[i].count >= 0
    ensures SumCounts(rows) >= 0
    decreases |rows|
  {
    if rows != [] {
      CountsNonNegative(rows[..|rows| - 1]);
    }
  }

  lemma DivideBelow(total: real, n: real, m: real)
    requires n > 0.0 && total <= n * m
    ensures total / n <= m
  {
  }
}
