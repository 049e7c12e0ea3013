/**
 * The hourly aggregation buffer of storage_update.py (`StorageUpdater`).
 *
 * Two pending maps, one for the local save and one for the upload, take
 * partial field dicts per `(year, month, day, hour)` bucket. A bucket with
 * exactly 11 fields is complete; a flush removes the complete buckets and
 * hands them to a worker, or, when that worker is still running, puts
 * them back. Whether a worker is running is an input to each operation;
 * the batches handed to the workers are recorded in `saveBatches` and
 * `sendBatches`, which stand for the background save and upload.
 */
module StorageUpdate {
  import opened Wrappers

  /** `(year, month, day, hour)`. */
  datatype HourKey = HourKey(year: int, month: int, day: int, hour: int)

  /**
   * A field value: an integer counter, a real, an image (abstracted to its
   * height and width; its pixels play no part in the bookkeeping) or `None`.
   */
  datatype Value = Int(i: int) | Real(r: real) | Image(height: nat, width: nat) | NoneValue

  type Fields = map<string, Value>

  type Buckets = map<HourKey, Fields>

  /** The number of fields a complete bucket has. */
  const FieldCount: nat := 11

  predicate Complete(f: Fields) { |f| == FieldCount }

  // ---------------------------------------------------------------- the fields the producers write

  /** The nine fields the face pipeline emits on an hour change. */
  function FaceFields(): set<string> {
    {"count", "wait_time", "stay_time", "male", "female", "age1", "age2", "age3", "age4"}
  }

  /** The two fields the motion pipeline emits on an hour change. */
  function MotionFields(): set<string> {
    {"heatmap", "frame"}
  }

  /** The fields `insert_into_hour_data` reads from a bucket. */
  function StoredFields(): set<string> {
    {"count", "wait_time", "stay_time", "male", "female", "age1", "age2", "age3", "age4", "heatmap", "frame"}
  }

  /**
   * The two producers write disjoint field sets whose union is exactly
   * what the store reads, and that union has 11 members: the count that
   * makes a bucket complete.
   */
  lemma ProducersFillStoredFields()
    ensures FaceFields() !! MotionFields()
    ensures FaceFields() + MotionFields() == StoredFields()
    ensures |StoredFields()| == FieldCount
  {
    ProducersDisjoint();
    FaceFieldCount();
    assert |MotionFields()| == 2;
    ProducersCover();
  }

  lemma ProducersDisjoint()
    ensures FaceFields() !! MotionFields()
  {
  }

  lemma ProducersCover()
    ensures FaceFields() + MotionFields() == StoredFields()
  {
  }

  lemma FaceFieldCount()
    ensures |FaceFields()| == 9
  {
  }

  // ---------------------------------------------------------------- merging

  /** `dict.update`: the fields of `b` overwrite those of `a`. */
  function Merge(a: Fields, b: Fields): (r: Fields)
    ensures r.Keys == a.Keys + b.Keys
    ensures forall f :: f in b ==> r[f] == b[f]
    ensures forall f :: f in a && f !in b ==> r[f] == a[f]
  {
    a + b
  }

  /** The bucket `key` of `m`, empty when absent. */
  function Entry(m: Buckets, key: HourKey): Fields {
    if key in m then m[key] else map[]
  }

  /** Merging `data` into bucket `key`, creating it first when absent. */
  function Record(m: Buckets, key: HourKey, data: Fields): (r: Buckets)
    ensures r.Keys == m.Keys + {key}
    ensures forall k :: k in m && k != key ==> r[k] == m[k]
  {
    m[key := Merge(Entry(m, key), data)]
  }

  /** Recording the same fields twice changes nothing the second time. */
  lemma RecordIdempotent(m: Buckets, key: HourKey, data: Fields)
    ensures Record(Record(m, key, data), key, data) == Record(m, key, data)
  {
    var once := Record(m, key, data);
    assert Merge(Entry(once, key), data) == Merge(Entry(m, key), data);
  }

  /**
   * Producers writing disjoint fields of one bucket may record in either
   * order: the bucket ends with the union of their fields.
   */
  lemma RecordCommutes(m: Buckets, key: HourKey, d1: Fields, d2: Fields)
    requires d1.Keys !! d2.Keys
    ensures Record(Record(m, key, d1), key, d2) == Record(Record(m, key, d2), key, d1)
    ensures Record(Record(m, key, d1), key, d2)[key].Keys == Entry(m, key).Keys + d1.Keys + d2.Keys
  {
    var e := Entry(m, key);
    assert Entry(Record(m, key, d1), key) == Merge(e, d1);
    assert Entry(Record(m, key, d2), key) == Merge(e, d2);
    MergeCommutes(e, d1, d2);
    assert Record(Record(m, key, d1), key, d2) == m[key := Merge(Merge(e, d1), d2)];
    assert Record(Record(m, key, d2), key, d1) == m[key := Merge(Merge(e, d2), d1)];
  }

  /** Merging two disjoint sets of fields gives the same result in either order. */
  lemma MergeCommutes(e: Fields, d1: Fields, d2: Fields)
    requires d1.Keys !! d2.Keys
    ensures Merge(Merge(e, d1), d2) == Merge(Merge(e, d2), d1)
  {
    var x, y := Merge(Merge(e, d1), d2), Merge(Merge(e, d2), d1);
    assert x.Keys == y.Keys;
    forall f | f in x
      ensures x[f] == y[f]
    {
      if f in d1 {
        assert f !in d2;
      }
    }
  }

  /**
   * A bucket into which the face record and the motion record have both
   * been merged, with nothing else, is complete.
   */
  lemma BothProducersComplete(m: Buckets, key: HourKey, face: Fields, motion: Fields)
    requires key !in m
    requires face.Keys == FaceFields() && motion.Keys == MotionFields()
    ensures Complete(Record(Record(m, key, face), key, motion)[key])
    ensures Complete(Record(Record(m, key, motion), key, face)[key])
  {
    ProducersFillStoredFields();
    RecordCommutes(m, key, face, motion);
    assert Record(Record(m, key, face), key, motion)[key].Keys == StoredFields();
  }

  // ---------------------------------------------------------------- flushing

  /** The complete buckets of `m`. */
  function CompletePart(m: Buckets): (r: Buckets)
    ensures forall k :: k in r <==> k in m && Complete(m[k])
  {
    map k | k in m && Complete(m[k]) :: m[k]
  }

  /** The incomplete buckets of `m`. */
  function IncompletePart(m: Buckets): (r: Buckets)
    ensures forall k :: k in r <==> k in m && !Complete(m[k])
  {
    map k | k in m && !Complete(m[k]) :: m[k]
  }

  /**
   * Nothing is lost or duplicated by the split: the complete and the
   * incomplete buckets are disjoint and together give back `m`.
   */
  lemma SplitLossless(m: Buckets)
    ensures CompletePart(m).Keys !! IncompletePart(m).Keys
    ensures IncompletePart(m) + CompletePart(m) == m
    ensures forall k :: k in CompletePart(m) ==> CompletePart(m)[k] == m[k]
  {
  }

  /** A flush hands over a batch when there are complete buckets and the worker is not running. */
  predicate HandsOff(m: Buckets, busy: bool) {
    |CompletePart(m)| > 0 && !busy
  }

  /** The pending map after a flush. */
  function AfterFlush(m: Buckets, busy: bool): Buckets {
    if HandsOff(m, busy) then IncompletePart(m) else m
  }

  /** The batches a flush hands to the worker: none or one. */
  function Handed(m: Buckets, busy: bool): seq<Buckets> {
    if HandsOff(m, busy) then [CompletePart(m)] else []
  }

  /** The pending upload map after `_check_and_send`: flushed only once `interval` buckets are complete. */
  function AfterCheck(m: Buckets, interval: int, busy: bool): Buckets {
    if |CompletePart(m)| >= interval then AfterFlush(m, busy) else m
  }

  /** The upload batches `_check_and_send` hands over. */
  function CheckHanded(m: Buckets, interval: int, busy: bool): seq<Buckets> {
    if |CompletePart(m)| >= interval then Handed(m, busy) else []
  }

  /** Only whole hours leave the updater: every batch handed over is non-empty and holds complete buckets only. */
  predicate BatchesComplete(bs: seq<Buckets>) {
    forall i :: 0 <= i < |bs| ==> bs[i] != map[] && forall k :: k in bs[i] ==> Complete(bs[i][k])
  }

  /** A flush, opportunistic or not, hands over only a non-empty batch of complete buckets. */
  lemma HandedComplete(bs: seq<Buckets>, m: Buckets, interval: int, busy: bool)
    requires BatchesComplete(bs)
    ensures BatchesComplete(bs + Handed(m, busy))
    ensures BatchesComplete(bs + CheckHanded(m, interval, busy))
  {
    if HandsOff(m, busy) {
      assert CompletePart(m) != map[] by {
        assert |CompletePart(m)| > 0;
      }
    }
  }

  /** What a `StorageUpdater` holds: its two pending maps and the batches it has handed over. */
  datatype Store = Store(dataSave: Buckets, dataSend: Buckets, saveBatches: seq<Buckets>, sendBatches: seq<Buckets>)

  /**
   * The store after `update(key, data)`: the data is merged into both
   * pending maps, the save side is flushed, and the upload side is flushed
   * once `interval` buckets are complete.
   */
  function Updated(s: Store, interval: int, key: HourKey, data: Fields, saveBusy: bool, sendBusy: bool): Store {
    var save := Record(s.dataSave, key, data);
    var send := Record(s.dataSend, key, data);
    Store(AfterFlush(save, saveBusy), AfterCheck(send, interval, sendBusy),
          s.saveBatches + Handed(save, saveBusy), s.sendBatches + CheckHanded(send, interval, sendBusy))
  }

  /**
   * After a flush with an idle worker no complete bucket is pending, and
   * every bucket is either still pending or in the handed batch, never both.
   */
  lemma FlushWithIdleWorker(m: Buckets)
    ensures CompletePart(AfterFlush(m, false)) == map[]
    ensures forall k :: k in m ==>
      (k in AfterFlush(m, false) && AfterFlush(m, false)[k] == m[k]) != (k in CompletePart(m) && |CompletePart(m)| > 0)
  {
    if |CompletePart(m)| == 0 {
      assert CompletePart(m) == map[];
    }
  }

  /** A flush with a running worker leaves the pending map as it was and hands nothing over. */
  lemma FlushWithBusyWorker(m: Buckets)
    ensures AfterFlush(m, true) == m && Handed(m, true) == []
  {
  }

  /** Complete buckets among the keys in `ks`. */
  function CompleteKeys(m: Buckets, ks: set<HourKey>): set<HourKey> {
    set k | k in ks && k in m && Complete(m[k])
  }

  /** The counting loop of `_check_and_send`: how many buckets of `m` are complete. */
  method CountComplete(m: Buckets) returns (n: nat)
    ensures n == |CompletePart(m)|
  {
    n := 0;
    var remaining := m.Keys;
    while remaining != {}
      invariant remaining <= m.Keys
      invariant n == |CompleteKeys(m, m.Keys - remaining)|
      decreases remaining
    {
      var key :| key in remaining;
      ghost var before := CompleteKeys(m, m.Keys - remaining);
      if |m[key]| == FieldCount {
        n := n + 1;
        assert CompleteKeys(m, m.Keys - (remaining - {key})) == before + {key};
      } else {
        assert CompleteKeys(m, m.Keys - (remaining - {key})) == before;
      }
      remaining := remaining - {key};
    }
    assert m.Keys - remaining == m.Keys;
    assert CompletePart(m).Keys == CompleteKeys(m, m.Keys);
    assert |CompletePart(m)| == |CompletePart(m).Keys|;
  }

  // ---------------------------------------------------------------- upload payload

  /** The form and the two images one bucket is uploaded with. */
  datatype Payload = Payload(form: map<string, Value>, frame: Value, heatmap: Value)

  /** `RATIO` of heatmap.py: the heatmap is a fifth of the frame in each dimension. */
  const HeatmapRatio: real := 0.2

  function Floor(x: real): int {
    x.Floor
  }

  /** The bucket fields `_send_thread` reads. */
  function SentFields(): set<string> {
    {"wait_time", "stay_time", "male", "female", "age1", "age2", "age3", "age4", "frame", "heatmap"}
  }

  /**
   * `p` is the request for bucket `key` holding `f`: the form carries the
   * hour's date parts and the counters under their upload names, the frame
   * is the stored one, and a stored heatmap is sent as it is.
   */
  predicate IsRequestFor(key: HourKey, f: Fields, p: Payload)
    requires SentFields() <= f.Keys
  {
    p.form.Keys == {"year", "month", "day", "hour", "wait_time", "stay_time", "male", "female",
                    "age_group_1", "age_group_2", "age_group_3", "age_group_4"}
    && p.form["year"] == Int(key.year) && p.form["month"] == Int(key.month)
    && p.form["day"] == Int(key.day) && p.form["hour"] == Int(key.hour)
    && p.form["age_group_1"] == f["age1"] && p.form["age_group_2"] == f["age2"]
    && p.form["age_group_3"] == f["age3"] && p.form["age_group_4"] == f["age4"]
    && p.form["wait_time"] == f["wait_time"] && p.form["stay_time"] == f["stay_time"]
    && p.form["male"] == f["male"] && p.form["female"] == f["female"]
    && p.frame == f["frame"]
    && (f["heatmap"] != NoneValue ==> p.heatmap == f["heatmap"])
  }

  /**
   * The request `_send_thread` builds for one bucket: `None` when a field
   * it reads is missing (a KeyError), or when the frame is not an image,
   * since the frame is always written out as a picture before the heatmap
   * is looked at.
   */
  function PayloadOf(key: HourKey, f: Fields): (r: Option<Payload>)
    ensures r.Some? ==> SentFields() <= f.Keys && IsRequestFor(key, f, r.value) && r.value.frame.Image?
    ensures r.None? <==> !(SentFields() <= f.Keys) || !f["frame"].Image?
  {
    if !(SentFields() <= f.Keys) then None
    else if !f["frame"].Image? then None
    else
      var heatmap :=
        if f["heatmap"] == NoneValue
        then Image(NatOf(Floor(f["frame"].height as real * HeatmapRatio)), NatOf(Floor(f["frame"].width as real * HeatmapRatio)))
        else f["heatmap"];
      Some(Payload(Form(key, f), f["frame"], heatmap))
  }

  /** The form fields of the request: the hour's date parts and the stored counters, renamed. */
  function Form(key: HourKey, f: Fields): (form: map<string, Value>)
    requires {"wait_time", "stay_time", "male", "female", "age1", "age2", "age3", "age4"} <= f.Keys
    ensures form.Keys == {"year", "month", "day", "hour", "wait_time", "stay_time", "male", "female",
                          "age_group_1", "age_group_2", "age_group_3", "age_group_4"}
    ensures form["year"] == Int(key.year) && form["month"] == Int(key.month)
      && form["day"] == Int(key.day) && form["hour"] == Int(key.hour)
      && form["age_group_1"] == f["age1"] && form["age_group_2"] == f["age2"]
      && form["age_group_3"] == f["age3"] && form["age_group_4"] == f["age4"]
      && form["wait_time"] == f["wait_time"] && form["stay_time"] == f["stay_time"]
      && form["male"] == f["male"] && form["female"] == f["female"]
  {
    map["year" := Int(key.year), "month" := Int(key.month), "day" := Int(key.day), "hour" := Int(key.hour),
        "wait_time" := f["wait_time"], "stay_time" := f["stay_time"],
        "male" := f["male"], "female" := f["female"],
        "age_group_1" := f["age1"], "age_group_2" := f["age2"],
        "age_group_3" := f["age3"], "age_group_4" := f["age4"]]
  }

  function NatOf(i: int): nat {
    if i < 0 then 0 else i
  }

  /** A bucket carrying exactly the stored fields and an image frame always yields a payload. */
  lemma StoredBucketUploads(key: HourKey, f: Fields)
    requires f.Keys == StoredFields()
    requires f["frame"].Image?
    ensures PayloadOf(key, f).Some?
  {
  }

  /**
   * The payloads `_send_thread` posts for a batch visited in the given
   * order: the whole loop sits in one `try`, so the first bucket without a
   * payload ends the upload of the rest.
   */
  function Posted(entries: seq<(HourKey, Fields)>): (r: seq<Payload>)
    ensures |r| <= |entries|
  {
    if entries == [] then []
    else
      match PayloadOf(entries[0].0, entries[0].1)
      case None => []
      case Some(p) => [p] + Posted(entries[1..])
  }

  /**
   * The requests posted are, in order, those of the longest prefix of the
   * batch whose buckets all yield one; the bucket after it yields none.
   */
  lemma {:induction false} PostedPrefix(entries: seq<(HourKey, Fields)>)
    ensures var r := Posted(entries);
      (forall i :: 0 <= i < |r| ==> PayloadOf(entries[i].0, entries[i].1) == Some(r[i]))
      && (|r| < |entries| ==> PayloadOf(entries[|r|].0, entries[|r|].1).None?)
  {
    if entries != [] {
      var r := Posted(entries);
      match PayloadOf(entries[0].0, entries[0].1)
      case None =>
        assert r == [];
      case Some(p) =>
        var rest := Posted(entries[1..]);
        PostedPrefix(entries[1..]);
        assert r == [p] + rest;
        forall i | 0 <= i < |r|
          ensures PayloadOf(entries[i].0, entries[i].1) == Some(r[i])
        {
          if i > 0 {
            assert entries[i] == entries[1..][i - 1];
            assert r[i] == rest[i - 1];
          }
        }
        if |r| < |entries| {
          assert entries[|r|] == entries[1..][|rest|];
        }
    }
  }

  // ---------------------------------------------------------------- the buffer

  class StorageUpdater {
    /** `data_save`: buckets waiting for the local store. */
    var dataSave: Buckets
    /** `data_send`: buckets waiting for the upload. */
    var dataSend: Buckets
    /** The batches handed to save workers, in order. */
    var saveBatches: seq<Buckets>
    /** The batches handed to upload workers, in order. */
    var sendBatches: seq<Buckets>
    /** `SEND_DATA_INTERVAL`: complete buckets needed before an opportunistic upload. */
    const sendDataInterval: int

    /** Every batch handed over so far holds whole hours only. */
    ghost predicate Valid()
      reads this
    {
      BatchesComplete(saveBatches) && BatchesComplete(sendBatches)
    }

    /** The updater's state as a value. */
    function Contents(): Store
      reads this
    {
      Store(dataSave, dataSend, saveBatches, sendBatches)
    }

    constructor (sendDataInterval: int)
      ensures Valid()
      ensures dataSave == map[] && dataSend == map[]
      ensures saveBatches == [] && sendBatches == []
      ensures this.sendDataInterval == sendDataInterval
    {
      dataSave := map[];
      dataSend := map[];
      saveBatches := [];
      sendBatches := [];
      this.sendDataInterval := sendDataInterval;
    }

    /** `update(year, month, day, hour, data)`. */
    method Update(key: HourKey, data: Fields, saveBusy: bool, sendBusy: bool)
      requires Valid()
      modifies this
      ensures Valid()
      ensures Contents() == Updated(old(Contents()), sendDataInterval, key, data, saveBusy, sendBusy)
      ensures var save := Record(old(dataSave), key, data);
        dataSave == AfterFlush(save, saveBusy) && saveBatches == old(saveBatches) + Handed(save, saveBusy)
      ensures var send := Record(old(dataSend), key, data);
        dataSend == AfterCheck(send, sendDataInterval, sendBusy)
        && sendBatches == old(sendBatches) + CheckHanded(send, sendDataInterval, sendBusy)
    {
      dataSave := Record(dataSave, key, data);
      SaveData(saveBusy);
      ghost var saved, savedBatches := dataSave, saveBatches;
      dataSend := Record(dataSend, key, data);
      CheckAndSend(sendBusy);
      assert dataSave == saved && saveBatches == savedBatches;
    }

    /** `flush()`: a save and an upload regardless of the batch threshold. */
    method Flush(saveBusy: bool, sendBusy: bool)
      requires Valid()
      modifies this
      ensures Valid()
      ensures dataSave == AfterFlush(old(dataSave), saveBusy)
      ensures saveBatches == old(saveBatches) + Handed(old(dataSave), saveBusy)
      ensures dataSend == AfterFlush(old(dataSend), sendBusy)
      ensures sendBatches == old(sendBatches) + Handed(old(dataSend), sendBusy)
    {
      SaveData(saveBusy);
      SendData(sendBusy);
    }

    /** `_save_data()`: touches only the save side. */
    method SaveData(busy: bool)
      requires Valid()
      modifies this
      ensures Valid()
      ensures dataSave == AfterFlush(old(dataSave), busy)
      ensures saveBatches == old(saveBatches) + Handed(old(dataSave), busy)
      ensures dataSend == old(dataSend) && sendBatches == old(sendBatches)
    {
      var pending, batch := Flushed(dataSave, busy);
      HandedComplete(saveBatches, dataSave, sendDataInterval, busy);
      dataSave, saveBatches := pending, saveBatches + batch;
    }

    /** `_check_and_send()`: an upload once enough buckets are complete. */
    method CheckAndSend(busy: bool)
      requires Valid()
      modifies this
      ensures Valid()
      ensures dataSend == AfterCheck(old(dataSend), sendDataInterval, busy)
      ensures sendBatches == old(sendBatches) + CheckHanded(old(dataSend), sendDataInterval, busy)
      ensures dataSave == old(dataSave) && saveBatches == old(saveBatches)
    {
      var validCount := CountComplete(dataSend);
      if validCount >= sendDataInterval {
        SendData(busy);
      }
    }

    /** `_send_data()`: touches only the upload side. */
    method SendData(busy: bool)
      requires Valid()
      modifies this
      ensures Valid()
      ensures dataSend == AfterFlush(old(dataSend), busy)
      ensures sendBatches == old(sendBatches) + Handed(old(dataSend), busy)
      ensures dataSave == old(dataSave) && saveBatches == old(saveBatches)
    {
      var pending, batch := Flushed(dataSend, busy);
      HandedComplete(sendBatches, dataSend, sendDataInterval, busy);
      dataSend, sendBatches := pending, sendBatches + batch;
    }
  }

  /**
   * The body shared by `_save_data` and `_send_data`: extract the complete
   * buckets, then hand them over, or put them back when the worker is busy.
   */
  method Flushed(m: Buckets, busy: bool) returns (pending: Buckets, batch: seq<Buckets>)
    ensures pending == AfterFlush(m, busy) && batch == Handed(m, busy)
  {
    var copy;
    copy, pending := Extract(m);
    batch := [];
    if |copy| > 0 {
      if !busy {
        batch := [copy];
      } else {
        pending := PutBack(pending, copy);
        SplitLossless(m);
      }
    }
  }

  /** The extraction loop of a flush: removes and returns the complete buckets. */
  method Extract(m: Buckets) returns (copy: Buckets, rest: Buckets)
    ensures copy == CompletePart(m) && rest == IncompletePart(m)
  {
    copy, rest := map[], m;
    var remaining := m.Keys;
    while remaining != {}
      invariant remaining <= m.Keys
      invariant forall k :: k in copy <==> k in m && k !in remaining && Complete(m[k])
      invariant forall k :: k in copy ==> copy[k] == m[k]
      invariant forall k :: k in rest <==> k in m && (k in remaining || !Complete(m[k]))
      invariant forall k :: k in rest ==> rest[k] == m[k]
      decreases remaining
    {
      var key :| key in remaining;
      if |rest[key]| == FieldCount {
        copy := copy[key := rest[key]];
        rest := rest - {key};
      }
      remaining := remaining - {key};
    }
  }

  /** The put-back loop: each extracted bucket is assigned back into the pending map. */
  method PutBack(m: Buckets, copy: Buckets) returns (r: Buckets)
    ensures r == m + copy
  {
    r := m;
    var remaining := copy.Keys;
    while remaining != {}
      invariant remaining <= copy.Keys
      invariant r.Keys == m.Keys + (copy.Keys - remaining)
      invariant forall k :: k in r ==> r[k] == if k in copy && k !in remaining then copy[k] else m[k]
      decreases remaining
    {
      var key :| key in remaining;
      r := r[key := copy[key]];
      remaining := remaining - {key};
    }
  }
}
