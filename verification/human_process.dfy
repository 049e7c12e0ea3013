/**
 * The motion pipeline's hourly heatmap record (`HumanProcess.run` in
 * main.py) and the `HeatMap` accumulator of heatmap.py it reads.
 *
 * The heatmap is an array, but every operation the pipeline applies to it
 * (adding a frame's Gaussian kernels, subtracting the baseline, dividing
 * by a frame count) is elementwise, so the model follows one cell of it:
 * `heat` is that cell's accumulated value and the `mass` a frame adds is
 * what that frame's kernels add to it.
 */
module HumanPipeline {
  import opened Wrappers
  import SU = StorageUpdate
  import MP = MainPipeline

  function HeatOf(h: Option<real>): real {
    if h.Some? then h.value else 0.0
  }

  /**
   * The numpy array `HeatMap.heatmap` refers to, followed at one cell.
   * `update` adds to it in place, so every name bound to the array sees
   * the addition.
   */
  class HeatArray {
    var cell: real

    constructor (cell: real)
      ensures this.cell == cell
    {
      this.cell := cell;
    }
  }

  /** What a name bound to an array or to `None` holds. */
  function Cell(a: HeatArray?): (r: Option<real>)
    reads a
    ensures r.Some? <==> a != null
    ensures a != null ==> r.value == a.cell
  {
    if a == null then None else Some(a.cell)
  }

  /** heatmap.py's `HeatMap`: the accumulated array and the number of frames added since the last reset. */
  class HeatMap {
    var heatmap: HeatArray?
    var count: nat

    /** There is an array exactly when some frame has been added. */
    ghost predicate Valid()
      reads this
    {
      heatmap == null <==> count == 0
    }

    constructor ()
      ensures Valid() && heatmap == null && count == 0
    {
      heatmap, count := null, 0;
    }

    /**
     * `update`: the first frame creates a zero array; each frame counts
     * once and adds its kernels to the same array in place.
     */
    method Update(mass: real)
      requires Valid()
      modifies this, heatmap
      ensures Valid() && heatmap != null
      ensures count == old(count) + 1 && heatmap.cell == HeatOf(old(Cell(heatmap))) + mass
      ensures old(heatmap) != null ==> heatmap == old(heatmap)
      ensures old(heatmap) == null ==> fresh(heatmap)
    {
      if heatmap == null {
        heatmap := new HeatArray(0.0);
        count := 0;
      }
      count := count + 1;
      heatmap.cell := heatmap.cell + mass;
    }

    /** `get_heatmap`: the mean heat per frame, or `None` before the first frame. */
    function GetHeatmap(): (r: Option<real>)
      reads this, heatmap
      requires Valid()
      ensures r.Some? <==> count > 0
      ensures r.Some? ==> r.value * count as real == heatmap.cell
    {
      if heatmap != null && count != 0 then Some(heatmap.cell / count as real) else None
    }

    /** `reset`: drops the array (names still bound to it keep it) and the count. */
    method Reset()
      modifies this
      ensures Valid() && heatmap == null && count == 0
    {
      heatmap, count := null, 0;
    }
  }

  /**
   * The values of `last_heatmap` and `last_heatmap_count` at the last hour
   * change, taken as a copy of the array: the baseline the hour's heatmap
   * is measured against.
   */
  datatype Baseline = Baseline(heat: Option<real>, count: int)

  const NoBaseline: Baseline := Baseline(None, 0)

  /** The hour's heatmap, or the `TypeError` raised when `None` meets an array in `hmap - last_heatmap` or `diff_hmap / diff_count`. */
  datatype HourHeat = TypeError | HourHeat(value: Option<real>)

  /**
   * The hour's heatmap as `HumanProcess.run` computes it: the heat added
   * since the baseline divided by the frames added since the baseline, or
   * `None` when no frame was added.
   */
  function HourHeatmap(heat: Option<real>, count: int, base: Baseline): HourHeat {
    if base.heat.Some? then
      if heat.None? then TypeError
      else if count - base.count != 0 then HourHeat(Some((heat.value - base.heat.value) / (count - base.count) as real))
      else HourHeat(None)
    else if count != 0 then
      if heat.None? then TypeError else HourHeat(Some(heat.value / count as real))
    else HourHeat(None)
  }

  /** The mean of the heat the hour's frames added, `None` for an hour without frames. */
  function MeanHeat(masses: seq<real>): (r: Option<real>)
    ensures r.Some? <==> |masses| > 0
  {
    if masses == [] then None else Some(MP.Mean(masses))
  }

  /**
   * The heatmap has grown from the baseline by exactly the hour's frames
   * `masses`: one count and one kernel mass each.
   */
  ghost predicate Tracks(hm: HeatMap, base: Baseline, masses: seq<real>)
    reads hm, hm.heatmap
  {
    hm.Valid()
    && hm.count == base.count + |masses|
    && (base.heat.None? ==> base.count == 0 && HeatOf(Cell(hm.heatmap)) == MP.Sum(masses))
    && (base.heat.Some? ==> hm.heatmap != null && hm.heatmap.cell == base.heat.value + MP.Sum(masses))
  }

  /** While the heatmap tracks the hour's frames, the hour's heatmap is the mean of what they added, and nothing raises. */
  lemma HourHeatmapIsMean(heat: Option<real>, count: nat, base: Baseline, masses: seq<real>)
    requires heat.None? <==> count == 0
    requires count == base.count + |masses|
    requires base.heat.None? ==> base.count == 0 && HeatOf(heat) == MP.Sum(masses)
    requires base.heat.Some? ==> heat.Some? && heat.value == base.heat.value + MP.Sum(masses)
    ensures HourHeatmap(heat, count, base) == HourHeat(MeanHeat(masses))
  {
  }

  /** One frame with a detection result: `heatmap.update` adds it to the hour. */
  method AddFrame(hm: HeatMap, mass: real, ghost base: Baseline, ghost masses: seq<real>)
    requires Tracks(hm, base, masses)
    modifies hm, hm.heatmap
    ensures Tracks(hm, base, masses + [mass])
  {
    hm.Update(mass);
    assert (masses + [mass])[..|masses|] == masses;
  }

  /** The two fields the motion pipeline stores for an hour. */
  function MotionRecord(h: Option<real>, frame: SU.Value): (f: SU.Fields)
    ensures f.Keys == SU.MotionFields()
    ensures f["frame"] == frame
    ensures h.None? <==> f["heatmap"] == SU.NoneValue
    ensures h.Some? ==> f["heatmap"] == SU.Real(h.value)
  {
    map["heatmap" := if h.Some? then SU.Real(h.value) else SU.NoneValue, "frame" := frame]
  }

  /**
   * The heatmap side of the end-of-hour block as written: the hour's
   * heatmap is computed against the baseline, then `last_heatmap` is bound
   * to the live array itself, not to a copy, and `last_heatmap_count` to
   * the count. On a new date the heatmap drops its array, which
   * `last_heatmap` keeps with the previous day's values.
   */
  method RolloverAsWritten(hm: HeatMap, lastHeatmap: HeatArray?, lastCount: int, newDay: bool)
    returns (outcome: HourHeat, lastHeatmap': HeatArray?, lastCount': int)
    requires hm.Valid()
    modifies hm
    ensures hm.Valid()
    ensures outcome == HourHeatmap(old(Cell(hm.heatmap)), old(hm.count), Baseline(old(Cell(lastHeatmap)), lastCount))
    ensures outcome.TypeError? ==> lastHeatmap' == lastHeatmap && lastCount' == lastCount && unchanged(hm)
    ensures outcome.HourHeat? ==>
      lastHeatmap' == old(hm.heatmap) && lastCount' == old(hm.count)
      && (newDay ==> hm.heatmap == null && hm.count == 0)
      && (!newDay ==> hm.heatmap == old(hm.heatmap) && hm.count == old(hm.count))
  {
    outcome := HourHeatmap(Cell(hm.heatmap), hm.count, Baseline(Cell(lastHeatmap), lastCount));
    lastHeatmap', lastCount' := lastHeatmap, lastCount;
    if outcome.HourHeat? {
      lastHeatmap', lastCount' := hm.heatmap, hm.count;
      if newDay {
        hm.Reset();
      }
    }
  }

  /**
   * The end-of-hour block of `HumanProcess.run` as written: on an hour
   * change the heatmap side above runs and, unless it raised, the hour's
   * heatmap and frame are stored under the finished hour.
   */
  method HourTickAsWritten(hm: HeatMap, storage: SU.StorageUpdater, lastTime: SU.HourKey,
                           lastHeatmap: HeatArray?, lastCount: int,
                           current: SU.HourKey, frame: SU.Value, saveBusy: bool, sendBusy: bool)
    returns (outcome: HourHeat, lastTime': SU.HourKey, lastHeatmap': HeatArray?, lastCount': int)
    requires hm.Valid() && storage.Valid()
    modifies hm, storage
    ensures hm.Valid() && storage.Valid()
    ensures lastTime == current ==>
      outcome == HourHeat(None) && lastTime' == lastTime && lastHeatmap' == lastHeatmap && lastCount' == lastCount
      && unchanged(hm) && unchanged(storage)
    ensures lastTime != current ==>
      outcome == HourHeatmap(old(Cell(hm.heatmap)), old(hm.count), Baseline(old(Cell(lastHeatmap)), lastCount))
    ensures lastTime != current && outcome.TypeError? ==> unchanged(storage)
    ensures lastTime != current && outcome.HourHeat? ==>
      lastTime' == current && lastHeatmap' == old(hm.heatmap) && lastCount' == old(hm.count)
      && (lastTime.day != current.day ==> hm.heatmap == null && hm.count == 0)
      && (lastTime.day == current.day ==> hm.heatmap == old(hm.heatmap) && hm.count == old(hm.count))
      && storage.Contents() == SU.Updated(old(storage.Contents()), storage.sendDataInterval, lastTime,
                                          MotionRecord(outcome.value, frame), saveBusy, sendBusy)
  {
    outcome, lastTime', lastHeatmap', lastCount' := HourHeat(None), lastTime, lastHeatmap, lastCount;
    if lastTime != current {
      outcome, lastHeatmap', lastCount' := RolloverAsWritten(hm, lastHeatmap, lastCount, lastTime.day != current.day);
      if outcome.TypeError? {
        return;
      }
      lastTime' := current;
      storage.Update(lastTime, MotionRecord(outcome.value, frame), saveBusy, sendBusy);
    }
  }

  /**
   * Because the baseline is the live array, a second hour change on the
   * same day measures the array against itself. From the start of a run
   * (no baseline, main.py:579-580), a first hour with frames, then one
   * frame of heat `mass`, then the next hour change on the same day,
   * yields a heatmap of 0 where the mean of that hour's frames is `mass`.
   */
  method SameDayHourStoresZero(hm: HeatMap, mass: real) returns (first: HourHeat, second: HourHeat)
    requires hm.Valid() && hm.heatmap != null
    modifies hm, hm.heatmap
    ensures first.HourHeat? && first.value.Some?
    ensures second == HourHeat(Some(0.0))
    ensures MeanHeat([mass]) == Some(mass)
  {
    var lastHeatmap, lastCount;
    first, lastHeatmap, lastCount := RolloverAsWritten(hm, null, 0, false);
    hm.Update(mass);
    ghost var h := hm.heatmap.cell;
    assert lastHeatmap == hm.heatmap && hm.count - lastCount == 1;
    second, lastHeatmap, lastCount := RolloverAsWritten(hm, lastHeatmap, lastCount, false);
    assert second == HourHeat(Some((h - h) / 1 as real));
    SingleFrameMean(mass);
  }

  /** An hour with a single frame has that frame's heat as its mean. */
  lemma SingleFrameMean(mass: real)
    ensures MeanHeat([mass]) == Some(mass)
  {
    assert [mass][..0] == [];
    assert MP.Sum([mass]) == mass;
    assert MP.Mean([mass]) == mass / 1.0;
  }

  /**
   * After a date change the as-written block has reset the heatmap but kept
   * the old baseline: if the first hour of the new day sees no frame, the
   * next hour change raises, although an hour without frames should store
   * no heatmap.
   */
  lemma StaleBaselineRaises(h: real, c: nat)
    requires c > 0
    ensures HourHeatmap(None, 0, Baseline(Some(h), c)) == TypeError
    ensures MeanHeat([]) == None
  {
  }

  /**
   * With a frame in that hour the as-written block divides the new day's
   * heat less the old day's by a negative frame count: one frame adding 5
   * against a baseline of 40 over 100 frames gives 35/99, not 5.
   */
  lemma StaleBaselineSkews()
    ensures HourHeatmap(Some(5.0), 1, Baseline(Some(40.0), 100)) == HourHeat(Some(35.0 / 99.0))
    ensures MeanHeat([5.0]) == Some(5.0)
  {
    assert MP.Sum([5.0]) == 5.0 by {
      assert [5.0][..0] == [];
    }
  }

  /**
   * The heatmap side of the end-of-hour block with two corrections: the
   * baseline is a copy of the array (`last_heatmap = hmap.copy()`), so
   * later frames of the same day do not move it, and on a new date the
   * baseline is cleared together with the heatmap. While the heatmap
   * tracks the hour's frames, the hour's heatmap is the mean of what those
   * frames added (`None` for an hour without frames), nothing raises, and
   * the next hour starts with no frames tracked.
   */
  method Rollover(hm: HeatMap, base: Baseline, newDay: bool, ghost masses: seq<real>)
    returns (heat: Option<real>, base': Baseline)
    requires Tracks(hm, base, masses)
    modifies hm
    ensures heat == MeanHeat(masses)
    ensures Tracks(hm, base', [])
    ensures newDay ==> base' == NoBaseline
  {
    HourHeatmapIsMean(Cell(hm.heatmap), hm.count, base, masses);
    heat := HourHeatmap(Cell(hm.heatmap), hm.count, base).value;
    if newDay {
      hm.Reset();
      base' := NoBaseline;
    } else {
      base' := Baseline(Cell(hm.heatmap), hm.count);
    }
  }

  /**
   * The corrected end-of-hour block: on an hour change the corrected
   * heatmap side runs and the hour's record is stored under the finished
   * hour, so every stored heatmap is the mean of its own hour's frames.
   */
  method HourTick(hm: HeatMap, storage: SU.StorageUpdater, lastTime: SU.HourKey, base: Baseline,
                  current: SU.HourKey, frame: SU.Value, saveBusy: bool, sendBusy: bool, ghost masses: seq<real>)
    returns (stored: Option<SU.Fields>, lastTime': SU.HourKey, base': Baseline)
    requires Tracks(hm, base, masses) && storage.Valid()
    modifies hm, storage
    ensures lastTime' == current
    ensures lastTime == current ==> stored == None && base' == base && Tracks(hm, base', masses)
    ensures lastTime != current ==> stored == Some(MotionRecord(MeanHeat(masses), frame)) && Tracks(hm, base', [])
    ensures lastTime != current && lastTime.day != current.day ==> base' == NoBaseline
    ensures storage.Valid()
    ensures stored.Some? ==>
      storage.Contents() == SU.Updated(old(storage.Contents()), storage.sendDataInterval, lastTime, stored.value, saveBusy, sendBusy)
    ensures stored.None? ==> unchanged(storage)
  {
    stored, lastTime', base' := None, lastTime, base;
    if lastTime != current {
      var heat;
      heat, base' := Rollover(hm, base, lastTime.day != current.day, masses);
      stored := Some(MotionRecord(heat, frame));
      lastTime' := current;
      storage.Update(lastTime, stored.value, saveBusy, sendBusy);
    }
  }
}
