/**
 * wait_time_estimate.py: `WaitTimeEstimator` accumulates, per track id,
 * the time a person spends inside the payment area, and adds an id's time
 * to the running total once that id has died and been counted.
 *
 * The payment-area mask is drawn by OpenCV from the area's polygon; the
 * model keeps what it is drawn from (`Mask`) and takes the pixel lookup
 * `_is_in_payment_area` as a predicate parameter `inArea`. The clock is the
 * parameter `now`.
 */
module WaitTime {
  import opened Wrappers
  import UtilsMain
  import MP = MainPipeline

  type Box = UtilsMain.Box

  /** What the mask is drawn from: the area polygon in relative coordinates and the image size. */
  datatype Mask = Mask(area: seq<UtilsMain.Point>, width: int, height: int)

  /** An `in_payment` entry `[last_time, total_time]`; `last_time` is `None` while the person is outside the area. */
  datatype Entry = Entry(lastTime: Option<real>, total: real)

  /** The pid the tracker gives a detection it has not confirmed yet. */
  const Unconfirmed: int := -1

  /** `get_avg_wait_time`: the mean, or the division by zero raised when no one has been counted. */
  datatype Average = DivisionByZero | Average(value: real)

  /**
   * One detection's effect on `in_payment`: unconfirmed detections are
   * ignored; inside the area a new pid starts at `[now, 0]` and a known
   * one adds the time since its last sighting (if it has one) and is seen
   * now; outside the area a known pid loses its last sighting.
   */
  function Visit(m: map<int, Entry>, pid: int, inside: bool, now: real): map<int, Entry> {
    if pid == Unconfirmed then m
    else if inside then
      if pid !in m then m[pid := Entry(Some(now), 0.0)]
      else
        var e := m[pid];
        m[pid := Entry(Some(now), if e.lastTime.Some? then e.total + (now - e.lastTime.value) else e.total)]
    else if pid in m then m[pid := m[pid].(lastTime := None)]
    else m
  }

  /** `in_payment` after the detections `k..` of the zipped `ids` and `boxes` have been visited. */
  function VisitedFrom(m: map<int, Entry>, ids: seq<int>, boxes: seq<Box>, mask: Mask,
                       inArea: (Mask, Box) -> bool, now: real, k: nat): map<int, Entry>
    requires k <= |ids| && k <= |boxes|
    decreases |ids| - k
  {
    if k == |ids| || k == |boxes| then m
    else VisitedFrom(Visit(m, ids[k], inArea(mask, boxes[k]), now), ids, boxes, mask, inArea, now, k + 1)
  }

  /** The pids among detections `k..` that were seen inside the area. */
  function SeenInside(ids: seq<int>, boxes: seq<Box>, mask: Mask, inArea: (Mask, Box) -> bool, k: nat): set<int>
    requires k <= |ids| && k <= |boxes|
    decreases |ids| - k
  {
    if k == |ids| || k == |boxes| then {}
    else (if ids[k] != Unconfirmed && inArea(mask, boxes[k]) then {ids[k]} else {})
         + SeenInside(ids, boxes, mask, inArea, k + 1)
  }

  /**
   * Visiting keeps every entry and adds one exactly for each confirmed pid
   * seen inside the area; with a clock that does not run backwards, no
   * entry's accumulated time decreases.
   */
  lemma {:induction false} VisitedKeys(m: map<int, Entry>, ids: seq<int>, boxes: seq<Box>, mask: Mask,
                                       inArea: (Mask, Box) -> bool, now: real, k: nat)
    requires k <= |ids| && k <= |boxes|
    requires forall pid :: pid in m && m[pid].lastTime.Some? ==> m[pid].lastTime.value <= now
    ensures var r := VisitedFrom(m, ids, boxes, mask, inArea, now, k);
      r.Keys == m.Keys + SeenInside(ids, boxes, mask, inArea, k)
      && Unconfirmed !in r.Keys - m.Keys
      && (forall pid :: pid in r && r[pid].lastTime.Some? ==> r[pid].lastTime.value <= now)
      && (forall pid :: pid in m ==> m[pid].total <= r[pid].total)
    decreases |ids| - k
  {
    if k < |ids| && k < |boxes| {
      var m' := Visit(m, ids[k], inArea(mask, boxes[k]), now);
      VisitedKeys(m', ids, boxes, mask, inArea, now, k + 1);
    }
  }

  /** A pid is finalised when it is missing from this frame, no longer alive, and was counted. */
  predicate Finalised(pid: int, ids: seq<int>, aliveIds: set<int>, countedIds: set<int>) {
    pid !in ids && pid !in aliveIds && pid in countedIds
  }

  function FinalisedIn(keys: set<int>, ids: seq<int>, aliveIds: set<int>, countedIds: set<int>): set<int> {
    set pid | pid in keys && Finalised(pid, ids, aliveIds, countedIds)
  }

  /** The accumulated times of the entries `s` of `m`, summed in any order. */
  ghost function TotalOf(m: map<int, Entry>, s: set<int>): real
    requires s <= m.Keys
    decreases s
  {
    if s == {} then 0.0
    else
      assert exists pid :: pid in s by { var someKey := Pick(s); }
      var pid :| pid in s; m[pid].total + TotalOf(m, s - {pid})
  }

  /** The sum does not depend on which entry is taken first. */
  lemma {:induction false} TotalOfRemove(m: map<int, Entry>, s: set<int>, pid: int)
    requires s <= m.Keys && pid in s
    ensures TotalOf(m, s) == m[pid].total + TotalOf(m, s - {pid})
    decreases s
  {
    var first :| first in s && TotalOf(m, s) == m[first].total + TotalOf(m, s - {first});
    if first != pid {
      TotalOfRemove(m, s - {first}, pid);
      TotalOfRemove(m, s - {pid}, first);
      assert s - {first} - {pid} == s - {pid} - {first};
    }
  }

  class WaitTimeEstimator {
    var inPayment: map<int, Entry>
    var count: nat
    var totalTime: real
    var paymentArea: seq<UtilsMain.Point>
    var paymentAreaMask: Option<Mask>
    /** The accumulated times of the ids counted since the last reset, in the order they were counted. */
    ghost var waits: seq<real>

    /** `count` and `total_time` are the number and the sum of the waits counted since the last reset. */
    ghost predicate Valid()
      reads this
    {
      count == |waits| && totalTime == MP.Sum(waits)
    }

    constructor ()
      ensures Valid()
      ensures inPayment == map[] && count == 0 && totalTime == 0.0 && paymentArea == [] && paymentAreaMask == None
    {
      inPayment, count, totalTime := map[], 0, 0.0;
      paymentArea, paymentAreaMask := [], None;
      waits := [];
    }

    /**
     * `update` for one frame: the mask is redrawn when the area changed
     * or none was drawn yet; every zipped detection is visited; then every
     * pid that is finalised leaves `in_payment`, counts once and adds its
     * accumulated time to the total, and every other entry stays.
     */
    method Update(detections: seq<Box>, ids: seq<int>, aliveIds: set<int>, countedIds: set<int>,
                  area: seq<UtilsMain.Point>, imgW: int, imgH: int, inArea: (Mask, Box) -> bool, now: real)
      requires Valid()
      modifies this
      ensures Valid()
      ensures paymentArea == area
      ensures paymentAreaMask == if old(paymentArea) != area || old(paymentAreaMask).None? then Some(Mask(area, imgW, imgH)) else old(paymentAreaMask)
      ensures var visited := VisitedFrom(old(inPayment), ids, detections, paymentAreaMask.value, inArea, now, 0);
        var done := FinalisedIn(visited.Keys, ids, aliveIds, countedIds);
        inPayment == (map pid | pid in visited && pid !in done :: visited[pid])
        && count == old(count) + |done|
        && totalTime == old(totalTime) + TotalOf(visited, done)
        && |waits| == |old(waits)| + |done| && waits[..|old(waits)|] == old(waits)
    {
      if paymentArea != area || paymentAreaMask.None? {
        paymentArea := area;
        paymentAreaMask := Some(Mask(area, imgW, imgH));
      }
      var mask := paymentAreaMask.value;
      var visited := VisitAll(inPayment, ids, detections, mask, inArea, now);
      inPayment, count, totalTime, waits := Finalise(visited, ids, aliveIds, countedIds, count, totalTime, waits);
    }

    /** `get_total_wait_time`. */
    function GetTotalWaitTime(): (r: real)
      reads this
      requires Valid()
      ensures r == MP.Sum(waits)
    {
      totalTime
    }

    /** `get_count`. */
    function GetCount(): (r: nat)
      reads this
      requires Valid()
      ensures r == |waits|
    {
      count
    }

    /** `get_avg_wait_time`: the mean of the counted waits, or a division by zero before the first. */
    function GetAvgWaitTime(): (r: Average)
      reads this
      requires Valid()
      ensures r.DivisionByZero? <==> waits == []
      ensures r.Average? ==> r.value == MP.Mean(waits)
    {
      if count == 0 then DivisionByZero else Average(totalTime / count as real)
    }

    /** `reset_all`: forgets every entry and the counted waits. */
    method ResetAll()
      modifies this
      ensures Valid() && waits == []
      ensures inPayment == map[] && count == 0 && totalTime == 0.0
      ensures paymentArea == old(paymentArea) && paymentAreaMask == old(paymentAreaMask)
    {
      inPayment, count, totalTime := map[], 0, 0.0;
      waits := [];
    }

    /** `reset_count`: forgets the counted waits and keeps the entries. */
    method ResetCount()
      modifies this
      ensures Valid() && waits == []
      ensures count == 0 && totalTime == 0.0
      ensures inPayment == old(inPayment) && paymentArea == old(paymentArea) && paymentAreaMask == old(paymentAreaMask)
    {
      count, totalTime := 0, 0.0;
      waits := [];
    }
  }

  /** The first loop of `update`: each zipped detection visited in order. */
  method VisitAll(m: map<int, Entry>, ids: seq<int>, boxes: seq<Box>, mask: Mask, inArea: (Mask, Box) -> bool, now: real)
    returns (r: map<int, Entry>)
    ensures r == VisitedFrom(m, ids, boxes, mask, inArea, now, 0)
  {
    r := m;
    var k := 0;
    while k < |ids| && k < |boxes|
      invariant k <= |ids| && k <= |boxes|
      invariant VisitedFrom(r, ids, boxes, mask, inArea, now, k) == VisitedFrom(m, ids, boxes, mask, inArea, now, 0)
    {
      r := Visit(r, ids[k], inArea(mask, boxes[k]), now);
      k := k + 1;
    }
  }

  /** The entries of `visited` still present while the pids `remaining` have not been looked at. */
  function Kept(visited: map<int, Entry>, done: set<int>, remaining: set<int>): map<int, Entry> {
    map pid | pid in visited && (pid in remaining || pid !in done) :: visited[pid]
  }

  /** Looking at one more pid removes its entry exactly when it is finalised, and adds its time to the finalised total. */
  lemma KeptStep(visited: map<int, Entry>, done: set<int>, remaining: set<int>, pid: int)
    requires done <= visited.Keys && remaining <= visited.Keys && pid in remaining
    ensures Kept(visited, done, remaining - {pid}) == if pid in done then Kept(visited, done, remaining) - {pid} else Kept(visited, done, remaining)
    ensures pid in done ==>
      |done - (remaining - {pid})| == |done - remaining| + 1
      && TotalOf(visited, done - (remaining - {pid})) == TotalOf(visited, done - remaining) + visited[pid].total
    ensures pid !in done ==> done - (remaining - {pid}) == done - remaining
  {
    if pid in done {
      TotalOfRemove(visited, done - (remaining - {pid}), pid);
      assert done - (remaining - {pid}) - {pid} == done - remaining;
    }
  }

  /** Where the second loop of `update` stands once the pids outside `remaining` have been looked at. */
  ghost predicate Progress(visited: map<int, Entry>, done: set<int>, remaining: set<int>, kept: map<int, Entry>,
                           count0: nat, total0: real, count: nat, total: real, added: seq<real>)
  {
    done <= visited.Keys && remaining <= visited.Keys && kept == Kept(visited, done, remaining)
    && count == count0 + |added| && total == total0 + MP.Sum(added)
    && |added| == |done - remaining| && MP.Sum(added) == TotalOf(visited, done - remaining)
  }

  /** The body of the second loop of `update` for the pid `pid`. */
  method FinaliseOne(visited: map<int, Entry>, ids: seq<int>, aliveIds: set<int>, countedIds: set<int>,
                     remaining: set<int>, pid: int, kept: map<int, Entry>, count0: nat, total0: real,
                     count: nat, total: real, ghost added: seq<real>)
    returns (kept': map<int, Entry>, count': nat, total': real, ghost added': seq<real>)
    requires pid in remaining
    requires Progress(visited, FinalisedIn(visited.Keys, ids, aliveIds, countedIds), remaining, kept, count0, total0, count, total, added)
    ensures Progress(visited, FinalisedIn(visited.Keys, ids, aliveIds, countedIds), remaining - {pid}, kept', count0, total0, count', total', added')
  {
    KeptStep(visited, FinalisedIn(visited.Keys, ids, aliveIds, countedIds), remaining, pid);
    kept', count', total', added' := kept, count, total, added;
    if pid !in ids && pid !in aliveIds && pid in countedIds {
      MP.SumSnoc(added, visited[pid].total);
      count' := count + 1;
      total' := total + visited[pid].total;
      added' := added + [visited[pid].total];
      kept' := kept - {pid};
    }
  }

  /**
   * The second loop of `update`: every finalised pid leaves `in_payment`,
   * counts once and adds its accumulated time (also appended to the
   * counted waits); every other entry stays.
   */
  method Finalise(visited: map<int, Entry>, ids: seq<int>, aliveIds: set<int>, countedIds: set<int>,
                  count0: nat, total0: real, ghost waits0: seq<real>)
    returns (kept: map<int, Entry>, count: nat, total: real, ghost waits: seq<real>)
    requires count0 == |waits0| && total0 == MP.Sum(waits0)
    ensures var done := FinalisedIn(visited.Keys, ids, aliveIds, countedIds);
      kept == (map pid | pid in visited && pid !in done :: visited[pid])
      && count == count0 + |done| && total == total0 + TotalOf(visited, done)
    ensures count == |waits| && total == MP.Sum(waits) && |waits| >= |waits0| && waits[..|waits0|] == waits0
  {
    ghost var done := FinalisedIn(visited.Keys, ids, aliveIds, countedIds);
    var remaining := visited.Keys;
    ghost var added: seq<real> := [];
    kept, count, total := visited, count0, total0;
    while remaining != {}
      invariant Progress(visited, done, remaining, kept, count0, total0, count, total, added)
      decreases remaining
    {
      ghost var someKey := Pick(remaining);
      var pid :| pid in remaining;
      kept, count, total, added := FinaliseOne(visited, ids, aliveIds, countedIds, remaining, pid, kept, count0, total0, count, total, added);
      remaining := remaining - {pid};
    }
    assert done - remaining == done;
    waits := waits0 + added;
    MP.SumConcat(waits0, added);
    assert waits[..|waits0|] == waits0;
  }
}
