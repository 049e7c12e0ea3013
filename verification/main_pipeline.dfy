/**
 * The bookkeeping of main.py: the face pipeline's per-hour visitor tally
 * and tracking list (`FaceProcess.run`), the motion pipeline's hourly
 * heatmap record (`HumanProcess.run`) and the day totals of
 * `MainWindow.load_day_data`.
 *
 * Detectors, estimators and the face-identity manager are outside: their
 * results arrive as inputs, and the profiles handed to the identity
 * manager are recorded in a sequence.
 */
module MainPipeline {
  import opened Wrappers
  import opened UtilsMain
  import opened Tracker3
  import SU = StorageUpdate

  // ================================================================ the face pipeline

  /** An aligned face crop, abstracted to an identifier. */
  type Face = nat

  /** A detected face with what the estimator says about it: gender score, age and the aligned crop. */
  datatype FaceDetection = FaceDetection(rec: Box, gender: real, age: real, face: Face)

  /** `(b - t + r - l) / 2`: the mean side of a face box. */
  function FaceSize(rec: Box): real {
    (rec.b - rec.t + rec.r - rec.l) / 2.0
  }

  predicate LargeEnough(d: FaceDetection, minFaceSize: real) {
    FaceSize(d.rec) > minFaceSize
  }

  /** The faces the size filter keeps, in their detection order. */
  function LargeFaces(dets: seq<FaceDetection>, minFaceSize: real): (r: seq<FaceDetection>)
    ensures |r| <= |dets|
    ensures forall d :: d in r <==> d in dets && LargeEnough(d, minFaceSize)
  {
    if dets == [] then []
    else
      var last := dets[|dets| - 1];
      var prev := LargeFaces(dets[..|dets| - 1], minFaceSize);
      assert dets == dets[..|dets| - 1] + [last];
      if LargeEnough(last, minFaceSize) then prev + [last] else prev
  }

  /** The size filter loop: a face is kept exactly when its mean side exceeds `MIN_FACE_SIZE`. */
  method FilterFaces(dets: seq<FaceDetection>, minFaceSize: real) returns (kept: seq<FaceDetection>)
    ensures kept == LargeFaces(dets, minFaceSize)
  {
    kept := [];
    for i := 0 to |dets|
      invariant kept == LargeFaces(dets[..i], minFaceSize)
    {
      assert dets[..i + 1][..i] == dets[..i];
      if FaceSize(dets[i].rec) > minFaceSize {
        kept := kept + [dets[i]];
      }
    }
    assert dets[..|dets|] == dets;
  }

  /** What the tracking list records of one kept face. */
  datatype Observation = Observation(age: real, gender: real, face: Face)

  /** The estimator's age is shifted up by five years. */
  const AgeShift: real := 5.0

  /** The estimation loop: one observation per kept face, in order, with the age shifted. */
  method Estimate(kept: seq<FaceDetection>) returns (obs: seq<Observation>)
    ensures |obs| == |kept|
    ensures forall i :: 0 <= i < |kept| ==>
      obs[i] == Observation(kept[i].age + AgeShift, kept[i].gender, kept[i].face)
  {
    obs := [];
    for i := 0 to |kept|
      invariant |obs| == i
      invariant forall j :: 0 <= j < i ==> obs[j] == Observation(kept[j].age + AgeShift, kept[j].gender, kept[j].face)
    {
      var a := kept[i].age + AgeShift;
      obs := obs + [Observation(a, kept[i].gender, kept[i].face)];
    }
  }

  /** `recs.astype('int')`: every coordinate truncated toward zero. */
  function TruncatedBox(rec: Box): Box {
    Box(Truncate(rec.l) as real, Truncate(rec.t) as real, Truncate(rec.r) as real, Truncate(rec.b) as real)
  }

  function TruncatedBoxes(kept: seq<FaceDetection>): (r: seq<Box>)
    ensures |r| == |kept|
  {
    seq(|kept|, i requires 0 <= i < |kept| => TruncatedBox(kept[i].rec))
  }

  // ---------------------------------------------------------------- profiles

  /** An entry of `tracking_list`: first-seen time, every age and gender estimate, recent faces. */
  datatype Profile = Profile(timestamp: real, ages: seq<real>, genders: seq<real>, faces: seq<Face>)

  /** At most this many faces are kept per tracked id. */
  const MaxFaces: nat := 20

  /** At most this many faces are handed to the identity manager. */
  const FacesPerHandoff: nat := 5

  predicate ProfileOk(p: Profile) {
    |p.ages| == |p.genders| > 0 && |p.faces| <= MaxFaces
  }

  /** Appending one observation; once there are more than `MaxFaces` faces the oldest goes. */
  function Append(p: Profile, o: Observation): (r: Profile)
    ensures r.timestamp == p.timestamp && r.ages == p.ages + [o.age] && r.genders == p.genders + [o.gender]
    ensures |p.faces| <= MaxFaces ==> |r.faces| <= MaxFaces
    ensures 0 < |r.faces| && r.faces[|r.faces| - 1] == o.face
    ensures |p.faces| < MaxFaces ==> r.faces == p.faces + [o.face]
  {
    var faces := p.faces + [o.face];
    Profile(p.timestamp, p.ages + [o.age], p.genders + [o.gender], if |faces| > MaxFaces then faces[1..] else faces)
  }

  /**
   * `tracking_list` once the (id, observation) pairs of a frame from the
   * `k`-th on have been recorded into `tl`, in order.
   */
  function ObservedFrom(tl: map<nat, Profile>, ids: seq<nat>, obs: seq<Observation>, now: real, k: nat): map<nat, Profile>
    requires k <= |ids| && |ids| == |obs|
    decreases |ids| - k
  {
    if k == |ids| then tl else ObservedFrom(Observe(tl, ids[k], obs[k], now), ids, obs, now, k + 1)
  }

  /** One pair: an unknown id gets a fresh profile stamped `now`, then the observation is appended. */
  function Observe(tl: map<nat, Profile>, id: nat, o: Observation, now: real): map<nat, Profile> {
    var p := if id in tl then tl[id] else Profile(now, [], [], []);
    tl[id := Append(p, o)]
  }

  /**
   * Recording observations tracks exactly the old ids and the observed
   * ones, keeps every profile well formed and leaves unobserved ids alone.
   */
  lemma {:induction false} ObservedProfiles(tl: map<nat, Profile>, ids: seq<nat>, obs: seq<Observation>, now: real, k: nat)
    requires k <= |ids| && |ids| == |obs|
    requires forall id :: id in tl ==> ProfileOk(tl[id])
    ensures forall id :: id in ObservedFrom(tl, ids, obs, now, k) <==> id in tl || id in ids[k..]
    ensures forall id :: id in ObservedFrom(tl, ids, obs, now, k) ==> ProfileOk(ObservedFrom(tl, ids, obs, now, k)[id])
    ensures forall id :: id in tl && id !in ids[k..] ==> ObservedFrom(tl, ids, obs, now, k)[id] == tl[id]
    decreases |ids| - k
  {
    if k < |ids| {
      ObserveKeepsProfiles(tl, ids[k], obs[k], now);
      ObservedProfiles(Observe(tl, ids[k], obs[k], now), ids, obs, now, k + 1);
      InSuffixStep(ids, k);
    }
  }

  /** An element of a suffix is its first element or in the suffix one shorter. */
  lemma InSuffixStep(s: seq<nat>, k: nat)
    requires k < |s|
    ensures forall x :: x in s[k..] <==> x == s[k] || x in s[k + 1..]
  {
    assert s[k..] == [s[k]] + s[k + 1..];
  }

  /** One pair keeps every profile well formed and touches only its own id. */
  lemma ObserveKeepsProfiles(tl: map<nat, Profile>, id: nat, o: Observation, now: real)
    requires forall x :: x in tl ==> ProfileOk(tl[x])
    ensures Observe(tl, id, o, now).Keys == tl.Keys + {id}
    ensures forall x :: x in Observe(tl, id, o, now) ==> ProfileOk(Observe(tl, id, o, now)[x])
    ensures forall x :: x in tl && x != id ==> Observe(tl, id, o, now)[x] == tl[x]
  {
  }

  /** The entries of `tl` whose id is alive. */
  function Restrict(tl: map<nat, Profile>, alive: seq<nat>): (r: map<nat, Profile>)
    ensures forall id :: id in r <==> id in tl && id in alive
  {
    map id | id in tl && id in alive :: tl[id]
  }

  // ---------------------------------------------------------------- tallying a visitor

  /** A counted visitor: the averages of its age and gender estimates. */
  datatype Visitor = Visitor(avgAge: real, avgGender: real)

  function Sum(s: seq<real>): real {
    if s == [] then 0.0 else Sum(s[..|s| - 1]) + s[|s| - 1]
  }

  function Mean(s: seq<real>): real
    requires |s| > 0
  {
    Sum(s) / |s| as real
  }

  lemma {:induction false} SumConcat(a: seq<real>, b: seq<real>)
    ensures Sum(a + b) == Sum(a) + Sum(b)
    decreases |b|
  {
    if b != [] {
      SumConcat(a, b[..|b| - 1]);
      assert (a + b)[..|a + b| - 1] == a + b[..|b| - 1];
    } else {
      assert a + b == a;
    }
  }

  lemma SumSnoc(s: seq<real>, x: real)
    ensures Sum(s + [x]) == Sum(s) + x
  {
    assert (s + [x])[..|s|] == s;
  }

  /** A mean of values all above `b` is above `b`. */
  lemma {:induction false} MeanAbove(s: seq<real>, b: real)
    requires |s| > 0 && forall j :: 0 <= j < |s| ==> s[j] > b
    ensures Mean(s) > b
  {
    SumAbove(s, b);
  }

  lemma {:induction false} SumAbove(s: seq<real>, b: real)
    requires |s| > 0 && forall j :: 0 <= j < |s| ==> s[j] > b
    ensures Sum(s) > |s| as real * b
  {
    if |s| > 1 {
      SumAbove(s[..|s| - 1], b);
    }
  }

  function VisitorOf(p: Profile): Visitor
    requires |p.ages| > 0 && |p.genders| > 0
  {
    Visitor(Mean(p.ages), Mean(p.genders))
  }

  /** The age bucket: under 25, under 35, under 55, older. */
  function AgeGroup(avgAge: real): (g: nat)
    ensures 1 <= g <= 4
    ensures g == 1 <==> avgAge < 25.0
    ensures g == 2 <==> 25.0 <= avgAge < 35.0
    ensures g == 3 <==> 35.0 <= avgAge < 55.0
    ensures g == 4 <==> 55.0 <= avgAge
  {
    if avgAge < 25.0 then 1 else if avgAge < 35.0 then 2 else if avgAge < 55.0 then 3 else 4
  }

  /** An average gender score below one half counts as female. */
  predicate Female(v: Visitor) {
    v.avgGender < 0.5
  }

  function CountAge(vs: seq<Visitor>, g: nat): nat {
    if vs == [] then 0
    else CountAge(vs[..|vs| - 1], g) + (if AgeGroup(vs[|vs| - 1].avgAge) == g then 1 else 0)
  }

  function CountFemale(vs: seq<Visitor>): nat {
    if vs == [] then 0 else CountFemale(vs[..|vs| - 1]) + (if Female(vs[|vs| - 1]) then 1 else 0)
  }

  function CountMale(vs: seq<Visitor>): nat {
    if vs == [] then 0 else CountMale(vs[..|vs| - 1]) + (if Female(vs[|vs| - 1]) then 0 else 1)
  }

  /** Every visitor lands in exactly one gender and exactly one age group. */
  lemma {:induction false} TallyBalanced(vs: seq<Visitor>)
    ensures CountFemale(vs) + CountMale(vs) == |vs|
    ensures CountAge(vs, 1) + CountAge(vs, 2) + CountAge(vs, 3) + CountAge(vs, 4) == |vs|
    decreases |vs|
  {
    if vs != [] {
      TallyBalanced(vs[..|vs| - 1]);
    }
  }

  /** Every listed id has a well-formed profile. */
  predicate Known(tl: map<nat, Profile>, ids: seq<nat>) {
    forall i :: 0 <= i < |ids| ==> ids[i] in tl && ProfileOk(tl[ids[i]])
  }

  /** `random.sample(faces, 5)` when there are more than five: five of the faces. */
  ghost predicate SamplesFive(sample: seq<Face> -> seq<Face>) {
    forall fs {:trigger sample(fs)} :: |fs| > FacesPerHandoff ==> |sample(fs)| == FacesPerHandoff && multiset(sample(fs)) <= multiset(fs)
  }

  function Sampled(p: Profile, sample: seq<Face> -> seq<Face>): Profile {
    if |p.faces| > FacesPerHandoff then p.(faces := sample(p.faces)) else p
  }

  /** Sampling keeps at most five of a profile's faces and nothing else changes. */
  lemma SampledFaces(p: Profile, sample: seq<Face> -> seq<Face>)
    requires SamplesFive(sample)
    ensures var q := Sampled(p, sample);
      q.timestamp == p.timestamp && q.ages == p.ages && q.genders == p.genders
      && |q.faces| <= FacesPerHandoff && |q.faces| <= |p.faces|
      && multiset(q.faces) <= multiset(p.faces)
  {
  }

  /** `tracking_list` after the first `k` counted ids had their faces sampled. */
  function HandedOver(tl: map<nat, Profile>, ids: seq<nat>, sample: seq<Face> -> seq<Face>, k: nat): (r: map<nat, Profile>)
    requires k <= |ids| && Known(tl, ids)
    requires SamplesFive(sample)
    ensures r.Keys == tl.Keys
    ensures forall id :: id in r ==>
      r[id].timestamp == tl[id].timestamp && r[id].ages == tl[id].ages && r[id].genders == tl[id].genders
      && |r[id].faces| <= |tl[id].faces|
  {
    if k == 0 then tl
    else
      var prev := HandedOver(tl, ids, sample, k - 1);
      SampledFaces(prev[ids[k - 1]], sample);
      prev[ids[k - 1] := Sampled(prev[ids[k - 1]], sample)]
  }

  /** Sampling twice samples once: after the first, at most five faces are left. */
  lemma SampledTwice(p: Profile, sample: seq<Face> -> seq<Face>)
    requires SamplesFive(sample)
    ensures Sampled(Sampled(p, sample), sample) == Sampled(p, sample)
  {
  }

  /** An element of a prefix one longer is in the shorter prefix or is its new last element. */
  lemma InPrefixStep(s: seq<nat>, k: nat, x: nat)
    requires 0 < k <= |s|
    ensures x in s[..k] <==> x in s[..k - 1] || x == s[k - 1]
  {
    assert s[..k] == s[..k - 1] + [s[k - 1]];
  }

  /** After the first `k` ids were handed over, an id's profile is sampled exactly when it was among them. */
  lemma {:induction false} HandedOverAt(tl: map<nat, Profile>, ids: seq<nat>, sample: seq<Face> -> seq<Face>, k: nat, id: nat)
    requires k <= |ids| && Known(tl, ids) && SamplesFive(sample) && id in tl
    ensures HandedOver(tl, ids, sample, k)[id] == if id in ids[..k] then Sampled(tl[id], sample) else tl[id]
    decreases k
  {
    if k > 0 {
      HandedOverAt(tl, ids, sample, k - 1, id);
      InPrefixStep(ids, k, id);
      if id == ids[k - 1] {
        SampledTwice(tl[id], sample);
      }
    }
  }

  /** A handed profile carries the id's estimates and at most five of its faces. */
  predicate HandoffOf(tl: map<nat, Profile>, id: nat, q: Profile) {
    id in tl && q.ages == tl[id].ages && q.genders == tl[id].genders
    && |q.faces| <= FacesPerHandoff && multiset(q.faces) <= multiset(tl[id].faces)
  }

  // ---------------------------------------------------------------- the tracking list, one frame

  /** The observations of the kept faces, in order. */
  function Observations(kept: seq<FaceDetection>): (obs: seq<Observation>)
    ensures |obs| == |kept|
  {
    seq(|kept|, i requires 0 <= i < |kept| => Observation(kept[i].age + AgeShift, kept[i].gender, kept[i].face))
  }

  /** The ids the tracker assigned, once every detection has one. */
  function IdValues(ids: seq<Option<nat>>): (r: seq<nat>)
    requires forall i :: 0 <= i < |ids| ==> ids[i].Some?
    ensures |r| == |ids|
    ensures forall i :: 0 <= i < |ids| ==> ids[i] == Some(r[i])
  {
    seq(|ids|, i requires 0 <= i < |ids| => ids[i].value)
  }

  /** The loop that adds a frame's observations to `tracking_list`. */
  method RecordObservations(tl: map<nat, Profile>, ids: seq<nat>, obs: seq<Observation>, now: real)
    returns (r: map<nat, Profile>)
    requires |ids| == |obs|
    ensures r == ObservedFrom(tl, ids, obs, now, 0)
  {
    r := tl;
    for k := 0 to |ids|
      invariant ObservedFrom(r, ids, obs, now, k) == ObservedFrom(tl, ids, obs, now, 0)
    {
      r := Observe(r, ids[k], obs[k], now);
    }
  }

  /** The loop that deletes every id that is no longer alive. */
  method RemoveDead(tl: map<nat, Profile>, alive: seq<nat>) returns (r: map<nat, Profile>)
    ensures r == Restrict(tl, alive)
  {
    r := tl;
    var keys := tl.Keys;
    while keys != {}
      invariant keys <= tl.Keys
      invariant forall id :: id in r <==> id in tl && (id in keys || id in alive)
      invariant forall id :: id in r ==> r[id] == tl[id]
      decreases keys
    {
      var k :| k in keys;
      if k !in alive {
        r := r - {k};
      }
      keys := keys - {k};
    }
  }

  // ---------------------------------------------------------------- the hour's counters

  /** The seven counters of an hour: visitors, male, female and the four age groups. */
  datatype Tally = Tally(count: nat, male: nat, female: nat, age1: nat, age2: nat, age3: nat, age4: nat)

  const NoVisitors: Tally := Tally(0, 0, 0, 0, 0, 0, 0)

  /** One counted visitor on the counters: its age group, its gender and the total each go up by one. */
  function CountVisitor(t: Tally, v: Visitor): Tally {
    var aged :=
      if v.avgAge < 25.0 then t.(age1 := t.age1 + 1)
      else if v.avgAge < 35.0 then t.(age2 := t.age2 + 1)
      else if v.avgAge < 55.0 then t.(age3 := t.age3 + 1)
      else t.(age4 := t.age4 + 1);
    var gendered := if v.avgGender < 0.5 then aged.(female := aged.female + 1) else aged.(male := aged.male + 1);
    gendered.(count := gendered.count + 1)
  }

  /** The counters `t` once the visitors `vs` have been counted one by one. */
  function AddVisitors(t: Tally, vs: seq<Visitor>): Tally
    decreases |vs|
  {
    if vs == [] then t else CountVisitor(AddVisitors(t, vs[..|vs| - 1]), vs[|vs| - 1])
  }

  /** Before any visitor is counted every counter is zero. */
  lemma NothingCounted(vs: seq<Visitor>)
    requires vs == []
    ensures AddVisitors(NoVisitors, vs) == NoVisitors
  {
  }

  /**
   * Counting visitor by visitor agrees with the reference counts: each
   * counter goes up by the number of visitors in its group.
   */
  lemma {:induction false} AddVisitorsCounts(t: Tally, vs: seq<Visitor>)
    ensures AddVisitors(t, vs).count == t.count + |vs|
    ensures AddVisitors(t, vs).male == t.male + CountMale(vs)
    ensures AddVisitors(t, vs).female == t.female + CountFemale(vs)
    ensures AddVisitors(t, vs).age1 == t.age1 + CountAge(vs, 1)
    ensures AddVisitors(t, vs).age2 == t.age2 + CountAge(vs, 2)
    ensures AddVisitors(t, vs).age3 == t.age3 + CountAge(vs, 3)
    ensures AddVisitors(t, vs).age4 == t.age4 + CountAge(vs, 4)
    decreases |vs|
  {
    if vs != [] {
      AddVisitorsCounts(t, vs[..|vs| - 1]);
    }
  }

  /** Counting one run of visitors and then another is counting both at once. */
  lemma {:induction false} AddVisitorsConcat(t: Tally, a: seq<Visitor>, b: seq<Visitor>)
    ensures AddVisitors(AddVisitors(t, a), b) == AddVisitors(t, a + b)
    decreases |b|
  {
    if b == [] {
      assert a + b == a;
    } else {
      AddVisitorsConcat(t, a, b[..|b| - 1]);
      assert (a + b)[..|a + b| - 1] == a + b[..|b| - 1];
    }
  }

  /** The nine fields the face pipeline stores for an hour; wait and stay times are always 0 here. */
  function FaceRecord(t: Tally): SU.Fields {
    map["count" := SU.Int(t.count), "wait_time" := SU.Int(0), "stay_time" := SU.Int(0),
        "male" := SU.Int(t.male), "female" := SU.Int(t.female),
        "age1" := SU.Int(t.age1), "age2" := SU.Int(t.age2), "age3" := SU.Int(t.age3), "age4" := SU.Int(t.age4)]
  }

  /** The record of an hour whose counted visitors were `vs`. */
  function HourRecord(vs: seq<Visitor>): SU.Fields {
    FaceRecord(AddVisitors(NoVisitors, vs))
  }

  /**
   * The hour record carries exactly the face pipeline's fields, and its
   * counters agree: the count is both the male plus female count and the
   * sum of the four age groups.
   */
  lemma HourRecordBalanced(vs: seq<Visitor>)
    ensures HourRecord(vs).Keys == SU.FaceFields()
    ensures HourRecord(vs)["count"] == SU.Int(|vs|)
    ensures HourRecord(vs)["wait_time"] == SU.Int(0) && HourRecord(vs)["stay_time"] == SU.Int(0)
    ensures HourRecord(vs)["male"].i + HourRecord(vs)["female"].i == |vs|
    ensures HourRecord(vs)["age1"].i + HourRecord(vs)["age2"].i + HourRecord(vs)["age3"].i + HourRecord(vs)["age4"].i == |vs|
  {
    AddVisitorsCounts(NoVisitors, vs);
    TallyBalanced(vs);
  }

  /** The visitors the first `k` counted ids make, in order. */
  function CountedVisitors(tl: map<nat, Profile>, counted: seq<nat>, k: nat): (vs: seq<Visitor>)
    requires k <= |counted| && Known(tl, counted)
    ensures |vs| == k
    ensures forall j :: 0 <= j < k ==> vs[j] == VisitorOf(tl[counted[j]])
  {
    if k == 0 then [] else CountedVisitors(tl, counted, k - 1) + [VisitorOf(tl[counted[k - 1]])]
  }

  /** Each handed profile carries its id's estimates and at most five of its recorded faces. */
  lemma HandedProfiles(tl: map<nat, Profile>, counted: seq<nat>, sample: seq<Face> -> seq<Face>)
    requires Known(tl, counted) && SamplesFive(sample)
    ensures forall j :: 0 <= j < |counted| ==> HandoffOf(tl, counted[j], Sampled(tl[counted[j]], sample))
  {
    forall j | 0 <= j < |counted|
      ensures HandoffOf(tl, counted[j], Sampled(tl[counted[j]], sample))
    {
      SampledFaces(tl[counted[j]], sample);
    }
  }

  /**
   * One turn of the loop over `counted_ids` samples the next id's current
   * profile, which still has its estimates and samples to what sampling
   * its recorded profile gives.
   */
  lemma HandOverStep(tl: map<nat, Profile>, counted: seq<nat>, sample: seq<Face> -> seq<Face>, i: nat)
    requires i < |counted| && Known(tl, counted) && SamplesFive(sample)
    ensures HandedOver(tl, counted, sample, i)[counted[i]].ages == tl[counted[i]].ages
    ensures HandedOver(tl, counted, sample, i)[counted[i]].genders == tl[counted[i]].genders
    ensures Sampled(HandedOver(tl, counted, sample, i)[counted[i]], sample) == Sampled(tl[counted[i]], sample)
    ensures HandedOver(tl, counted, sample, i + 1)
      == HandedOver(tl, counted, sample, i)[counted[i] := Sampled(tl[counted[i]], sample)]
  {
    HandedOverAt(tl, counted, sample, i, counted[i]);
    SampledTwice(tl[counted[i]], sample);
  }

  /** One turn of the loop over `counted_ids` counts the next id's visitor. */
  lemma CountStep(tl: map<nat, Profile>, counted: seq<nat>, t: Tally, i: nat)
    requires i < |counted| && Known(tl, counted)
    ensures CountedVisitors(tl, counted, i + 1) == CountedVisitors(tl, counted, i) + [VisitorOf(tl[counted[i]])]
    ensures AddVisitors(t, CountedVisitors(tl, counted, i + 1))
      == CountVisitor(AddVisitors(t, CountedVisitors(tl, counted, i)), VisitorOf(tl[counted[i]]))
  {
    var vs := CountedVisitors(tl, counted, i);
    assert (vs + [VisitorOf(tl[counted[i]])])[..|vs|] == vs;
  }

  /**
   * The loop over `counted_ids`: each counted visitor's average age and
   * gender enter the counters, and its profile, cut down to five sampled
   * faces, is handed to the identity manager.
   */
  method TallyCounted(tl: map<nat, Profile>, counted: seq<nat>, sample: seq<Face> -> seq<Face>, t: Tally)
    returns (tl': map<nat, Profile>, t': Tally, sent: seq<Profile>, ghost vs: seq<Visitor>)
    requires Known(tl, counted) && SamplesFive(sample)
    ensures tl' == HandedOver(tl, counted, sample, |counted|)
    ensures vs == CountedVisitors(tl, counted, |counted|)
    ensures t' == AddVisitors(t, vs)
    ensures |sent| == |counted| && forall j :: 0 <= j < |counted| ==> sent[j] == Sampled(tl[counted[j]], sample)
  {
    tl', t', sent := tl, t, [];
    var i := 0;
    while i < |counted|
      invariant i <= |counted|
      invariant tl' == HandedOver(tl, counted, sample, i)
      invariant t' == AddVisitors(t, CountedVisitors(tl, counted, i))
      invariant |sent| == i && forall j :: 0 <= j < i ==> sent[j] == Sampled(tl[counted[j]], sample)
    {
      var id := counted[i];
      var p := tl'[id];
      HandOverStep(tl, counted, sample, i);
      CountStep(tl, counted, t, i);
      var v := Visitor(Sum(p.ages) / |p.ages| as real, Sum(p.genders) / |p.genders| as real);
      t' := CountVisitor(t', v);
      var q := Sampled(p, sample);
      tl' := tl'[id := q];
      sent := sent + [q];
      i := i + 1;
    }
    vs := CountedVisitors(tl, counted, |counted|);
  }

  // ---------------------------------------------------------------- one processed frame

  /**
   * `tracking_list` at the end of a processed frame: the counted ids
   * handed over, the frame's observations recorded, the dead ids dropped.
   */
  function NextTrackingList(tl: map<nat, Profile>, counted: seq<nat>, sample: seq<Face> -> seq<Face>,
                            ids: seq<nat>, obs: seq<Observation>, now: real, alive: seq<nat>): map<nat, Profile>
    requires Known(tl, counted) && SamplesFive(sample) && |ids| == |obs|
  {
    Restrict(ObservedFrom(HandedOver(tl, counted, sample, |counted|), ids, obs, now, 0), alive)
  }

  /**
   * When `tracking_list` had a well-formed profile for exactly the old
   * tracks, then after the frame it has one for exactly the tracker's new
   * tracks: every id the tracker returned is in it and no counted id is.
   */
  lemma NextTrackingListTracks(tl: map<nat, Profile>, counted: seq<nat>, sample: seq<Face> -> seq<Face>,
                               ids: seq<nat>, obs: seq<Observation>, now: real, tracks: seq<Track>, items: seq<Track>)
    requires Known(tl, counted) && SamplesFive(sample) && |ids| == |obs|
    requires tl.Keys == IdsOf(tracks) && forall id :: id in tl ==> ProfileOk(tl[id])
    requires forall id :: id in IdsOf(items) ==> id in IdsOf(tracks) || id in ids
    requires forall i :: 0 <= i < |ids| ==> ids[i] in IdsOf(items)
    requires forall j :: 0 <= j < |counted| ==> counted[j] !in IdsOf(items)
    ensures NextTrackingList(tl, counted, sample, ids, obs, now, TrackIds(items)).Keys == IdsOf(items)
    ensures forall id :: id in NextTrackingList(tl, counted, sample, ids, obs, now, TrackIds(items)) ==>
      ProfileOk(NextTrackingList(tl, counted, sample, ids, obs, now, TrackIds(items))[id])
    ensures forall i :: 0 <= i < |ids| ==> ids[i] in NextTrackingList(tl, counted, sample, ids, obs, now, TrackIds(items))
    ensures forall j :: 0 <= j < |counted| ==> counted[j] !in NextTrackingList(tl, counted, sample, ids, obs, now, TrackIds(items))
  {
    var h := HandedOver(tl, counted, sample, |counted|);
    HandedOverProfiles(tl, counted, sample);
    ObservedProfiles(h, ids, obs, now, 0);
    assert ids[0..] == ids;
    var o := ObservedFrom(h, ids, obs, now, 0);
    AliveKeys(h.Keys, ids, o, TrackIds(items), items);
  }

  /**
   * The face pipeline's invariant: the counters tally the hour's visitors
   * and the tracking list has a well-formed profile for exactly the live
   * track ids.
   */
  predicate Consistent(t: Tally, visitors: seq<Visitor>, tl: map<nat, Profile>, items: seq<Track>) {
    t == AddVisitors(NoVisitors, visitors)
    && tl.Keys == IdsOf(items)
    && (forall id :: id in tl ==> ProfileOk(tl[id]))
  }

  /** The counted ids were tracks, so the tracking list has a well-formed profile for each. */
  lemma CountedKnown(tl: map<nat, Profile>, counted: seq<nat>, tracks: seq<Track>)
    requires tl.Keys == IdsOf(tracks) && forall id :: id in tl ==> ProfileOk(tl[id])
    requires forall id :: id in counted ==> id in IdsOf(tracks)
    ensures Known(tl, counted)
  {
  }

  /** A processed frame keeps the pipeline consistent with the tracker's new tracks. */
  lemma FrameKeepsConsistent(t: Tally, visitors: seq<Visitor>, tl: map<nat, Profile>, tracks: seq<Track>,
                             counted: seq<nat>, sample: seq<Face> -> seq<Face>, ids: seq<nat>, obs: seq<Observation>, now: real,
                             items: seq<Track>)
    requires Consistent(t, visitors, tl, tracks)
    requires Known(tl, counted) && SamplesFive(sample) && |ids| == |obs|
    requires forall id :: id in IdsOf(items) ==> id in IdsOf(tracks) || id in ids
    requires forall i :: 0 <= i < |ids| ==> ids[i] in IdsOf(items)
    requires forall j :: 0 <= j < |counted| ==> counted[j] !in IdsOf(items)
    ensures Consistent(AddVisitors(t, CountedVisitors(tl, counted, |counted|)), visitors + CountedVisitors(tl, counted, |counted|),
                       NextTrackingList(tl, counted, sample, ids, obs, now, TrackIds(items)), items)
  {
    NextTrackingListTracks(tl, counted, sample, ids, obs, now, tracks, items);
    AddVisitorsConcat(NoVisitors, visitors, CountedVisitors(tl, counted, |counted|));
  }

  /**
   * The bookkeeping of a processed frame once the tracker has moved from
   * `tracks` to `items`, giving the frame's faces the ids `ids` and
   * counting the ids `counted`: the loop over the counted ids, the loop
   * over the frame's ids and the removal of dead ids. The pipeline stays
   * consistent, and every handed profile has at most five faces.
   */
  method UpdateTrackingList(t: Tally, ghost visitors: seq<Visitor>, tl: map<nat, Profile>, counted: seq<nat>,
                            sample: seq<Face> -> seq<Face>, ids: seq<nat>, obs: seq<Observation>, now: real,
                            ghost tracks: seq<Track>, items: seq<Track>)
    returns (t': Tally, tl': map<nat, Profile>, sent: seq<Profile>, ghost visitors': seq<Visitor>)
    requires Consistent(t, visitors, tl, tracks) && SamplesFive(sample) && |ids| == |obs|
    requires forall id :: id in IdsOf(items) ==> id in IdsOf(tracks) || id in ids
    requires forall i :: 0 <= i < |ids| ==> ids[i] in IdsOf(items)
    requires forall id :: id in counted ==> id in IdsOf(tracks) && id !in IdsOf(items)
    ensures Consistent(t', visitors', tl', items) && Known(tl, counted)
    ensures visitors' == visitors + CountedVisitors(tl, counted, |counted|)
    ensures tl' == NextTrackingList(tl, counted, sample, ids, obs, now, TrackIds(items))
    ensures |sent| == |counted| && forall j :: 0 <= j < |counted| ==> sent[j] == Sampled(tl[counted[j]], sample)
    ensures forall j :: 0 <= j < |sent| ==> |sent[j].faces| <= FacesPerHandoff
  {
    CountedKnown(tl, counted, tracks);
    ghost var vs;
    tl', t', sent, vs := TallyCounted(tl, counted, sample, t);
    tl' := RecordObservations(tl', ids, obs, now);
    var alive := TrackIds(items);
    tl' := RemoveDead(tl', alive);
    FrameKeepsConsistent(t, visitors, tl, tracks, counted, sample, ids, obs, now, items);
    HandedProfiles(tl, counted, sample);
    visitors' := visitors + vs;
  }

  /** Handing profiles over keeps every profile well formed. */
  lemma HandedOverProfiles(tl: map<nat, Profile>, counted: seq<nat>, sample: seq<Face> -> seq<Face>)
    requires Known(tl, counted) && SamplesFive(sample)
    requires forall id :: id in tl ==> ProfileOk(tl[id])
    ensures forall id :: id in HandedOver(tl, counted, sample, |counted|) ==>
      ProfileOk(HandedOver(tl, counted, sample, |counted|)[id])
  {
  }

  /**
   * After recording and pruning, the tracking list's ids are exactly the
   * live track ids: every live id was either tracked before or assigned in
   * this frame.
   */
  lemma AliveKeys(before: set<nat>, ids: seq<nat>, tl: map<nat, Profile>, alive: seq<nat>, items: seq<Track>)
    requires forall id :: id in tl <==> id in before || id in ids
    requires |alive| == |items| && forall k :: 0 <= k < |alive| ==> alive[k] == items[k].id
    requires forall id :: id in IdsOf(items) ==> id in before || id in ids
    ensures Restrict(tl, alive).Keys == IdsOf(items)
  {
    forall id | id in IdsOf(items)
      ensures id in alive
    {
      var k :| 0 <= k < |items| && items[k].id == id;
      assert alive[k] == id;
    }
  }

  // ---------------------------------------------------------------- FaceProcess.run

  /**
   * What the tracker's answer to a frame means for the bookkeeping: every
   * face got an id, every live track is old or one of those ids, and every
   * counted id was a track and is gone.
   */
  lemma TrackerAnswer(tracks: seq<Track>, boxes: seq<Box>, now: real, nextId: nat,
                      maxAge: real, minLiveTime: real, threshold: real)
    requires DistinctTrackIds(tracks)
    requires forall t :: t in tracks ==> t.id < nextId
    ensures var out := Step(tracks, boxes, now, nextId, maxAge, minLiveTime, threshold);
      |out.ids| == |boxes| && (forall i :: 0 <= i < |boxes| ==> out.ids[i].Some?)
      && (forall i :: 0 <= i < |boxes| ==> IdValues(out.ids)[i] in IdsOf(out.items))
      && (forall id :: id in IdsOf(out.items) ==> id in IdsOf(tracks) || id in IdValues(out.ids))
      && (forall id :: id in out.counted ==> id in IdsOf(tracks) && id !in IdsOf(out.items))
  {
    var out := Step(tracks, boxes, now, nextId, maxAge, minLiveTime, threshold);
    StepIdsAccounted(tracks, boxes, now, nextId, maxAge, minLiveTime, threshold);
    var ids := IdValues(out.ids);
    forall id | id in IdsOf(out.items)
      ensures id in IdsOf(tracks) || id in ids
    {
      if id !in IdsOf(tracks) {
        var i :| 0 <= i < |boxes| && out.ids[i] == Some(id);
        assert ids[i] == id;
      }
    }
  }

  /**
   * One processed frame (the block run when the face detector returns a
   * result): filter small faces, estimate, update the tracker, tally the
   * counted visitors, hand their profiles over, record the observations
   * and drop dead ids.
   */
  method ProcessFrame(tracker: SimpleTracker, minFaceSize: real, t: Tally, ghost visitors: seq<Visitor>,
                      tl: map<nat, Profile>, dets: seq<FaceDetection>, now: real, sample: seq<Face> -> seq<Face>)
    returns (res: UpdateResult, t': Tally, tl': map<nat, Profile>, sent: seq<Profile>, ghost visitors': seq<Visitor>)
    requires tracker.Valid() && Consistent(t, visitors, tl, tracker.items) && SamplesFive(sample)
    modifies tracker
    ensures tracker.Valid() && Consistent(t', visitors', tl', tracker.items)
    ensures forall j :: 0 <= j < |sent| ==> |sent[j].faces| <= FacesPerHandoff
    ensures
      var out := Step(old(tracker.items), TruncatedBoxes(LargeFaces(dets, minFaceSize)), now, old(tracker.nextId),
                      tracker.maxAge, tracker.minLiveTime, tracker.disThreshold);
      res.ids == out.ids && res.counted == out.counted && tracker.items == out.items
      && tracker.nextId == old(tracker.nextId) + out.spawned
    ensures
      |res.ids| == |LargeFaces(dets, minFaceSize)| && (forall i :: 0 <= i < |res.ids| ==> res.ids[i].Some?)
      && Known(tl, res.counted)
      && visitors' == visitors + CountedVisitors(tl, res.counted, |res.counted|)
      && |sent| == |res.counted| && (forall j :: 0 <= j < |res.counted| ==> sent[j] == Sampled(tl[res.counted[j]], sample))
      && tl' == NextTrackingList(tl, res.counted, sample, IdValues(res.ids), Observations(LargeFaces(dets, minFaceSize)),
                                 now, TrackIds(tracker.items))
  {
    var kept := FilterFaces(dets, minFaceSize);
    var obs := Estimate(kept);
    assert obs == Observations(kept);
    var boxes := TruncatedBoxes(kept);
    ghost var items0, next0 := tracker.items, tracker.nextId;
    res := tracker.Update(boxes, now);
    TrackerAnswer(items0, boxes, now, next0, tracker.maxAge, tracker.minLiveTime, tracker.disThreshold);
    t', tl', sent, visitors' := UpdateTrackingList(t, visitors, tl, res.counted, sample, IdValues(res.ids), obs, now,
                                                   items0, tracker.items);
  }

  /**
   * The end-of-hour block: when the hour has changed, the nine counters
   * are the finished hour's record and start again from zero; otherwise
   * nothing happens.
   */
  method HourTick(t: Tally, ghost visitors: seq<Visitor>, lastTime: SU.HourKey, current: SU.HourKey)
    returns (t': Tally, lastTime': SU.HourKey, emitted: Option<(SU.HourKey, SU.Fields)>, ghost visitors': seq<Visitor>)
    requires t == AddVisitors(NoVisitors, visitors)
    ensures t' == AddVisitors(NoVisitors, visitors') && lastTime' == current
    ensures lastTime == current ==> emitted == None && visitors' == visitors
    ensures lastTime != current ==>
      emitted == Some((lastTime, HourRecord(visitors))) && visitors' == [] && t' == NoVisitors
  {
    if lastTime != current {
      emitted := Some((lastTime, FaceRecord(t)));
      NothingCounted([]);
      t', lastTime', visitors' := NoVisitors, current, [];
    } else {
      t', lastTime', emitted, visitors' := t, lastTime, None, visitors;
    }
  }

  /** The face pipeline's record of an hour: its nine fields, with counters that add up. */
  predicate BalancedRecord(f: SU.Fields) {
    f.Keys == SU.FaceFields()
    && "count" in f && "male" in f && "female" in f && "age1" in f && "age2" in f && "age3" in f && "age4" in f
    && f["wait_time"] == SU.Int(0) && f["stay_time"] == SU.Int(0)
    && f["count"].Int? && f["male"].Int? && f["female"].Int?
    && f["age1"].Int? && f["age2"].Int? && f["age3"].Int? && f["age4"].Int?
    && f["male"].i + f["female"].i == f["count"].i
    && f["age1"].i + f["age2"].i + f["age3"].i + f["age4"].i == f["count"].i
  }

  /** Whatever visitors an hour had, its record is balanced. */
  lemma HourRecordIsBalanced(vs: seq<Visitor>)
    ensures BalancedRecord(HourRecord(vs))
  {
    HourRecordBalanced(vs);
  }

  /**
   * The end-of-hour block with its `storage_updater.update(*last_time,
   * data)` call: a finished hour's record goes to the storage updater.
   */
  method StoreHour(storage: SU.StorageUpdater, t: Tally, ghost visitors: seq<Visitor>, lastTime: SU.HourKey,
                   current: SU.HourKey, saveBusy: bool, sendBusy: bool)
    returns (t': Tally, lastTime': SU.HourKey, record: Option<(SU.HourKey, SU.Fields)>, ghost visitors': seq<Visitor>)
    requires t == AddVisitors(NoVisitors, visitors) && storage.Valid()
    modifies storage
    ensures storage.Valid()
    ensures t' == AddVisitors(NoVisitors, visitors') && lastTime' == current
    ensures lastTime == current ==> record == None && visitors' == visitors && unchanged(storage)
    ensures lastTime != current ==>
      record == Some((lastTime, HourRecord(visitors))) && visitors' == [] && t' == NoVisitors
      && BalancedRecord(record.value.1)
      && storage.Contents() == SU.Updated(old(storage.Contents()), storage.sendDataInterval, lastTime, record.value.1,
                                          saveBusy, sendBusy)
  {
    t', lastTime', record, visitors' := HourTick(t, visitors, lastTime, current);
    if record.Some? {
      HourRecordIsBalanced(visitors);
      storage.Update(lastTime, record.value.1, saveBusy, sendBusy);
    }
  }

  /** One turn of `FaceProcess.run`'s loop: a frame read from the stream and what the clock said after it. */
  datatype FrameInput = FrameInput(
    /** The face detector's result, `None` when the scene was static or nothing was detected. */
    detections: Option<seq<FaceDetection>>,
    now: real,
    hour: SU.HourKey,
    /** Whether the storage updater's save and send workers were busy. */
    saveBusy: bool,
    sendBusy: bool)

  /** The number of visitors a frame counted: none when it was skipped. */
  function CountedBy(res: Option<UpdateResult>): nat {
    if res.Some? then |res.value.counted| else 0
  }

  /** What a frame reads and leaves behind apart from the hour: the tracker's tracks and id counter, and `tracking_list`. */
  datatype FaceState = FaceState(items: seq<Track>, nextId: nat, tl: map<nat, Profile>)

  /**
   * One frame of `FaceProcess.run`, from state `st` to state `st'`. A
   * static frame changes nothing and counts nobody. Otherwise the tracker
   * takes one step on the truncated boxes of the large faces, every face
   * gets an id, the frame's visitors are those of the counted ids in
   * `tracking_list`, each handed profile is the sampled profile of a counted
   * id, and `tracking_list` becomes `NextTrackingList`.
   */
  ghost predicate FrameStep(st: FaceState, frame: FrameInput, minFaceSize: real, sample: seq<Face> -> seq<Face>,
                            maxAge: real, minLiveTime: real, threshold: real,
                            res: Option<UpdateResult>, seen: seq<Visitor>, handed: seq<Profile>, st': FaceState)
  {
    match frame.detections
    case None => res == None && seen == [] && handed == [] && st' == st
    case Some(dets) =>
      var kept := LargeFaces(dets, minFaceSize);
      var out := Step(st.items, TruncatedBoxes(kept), frame.now, st.nextId, maxAge, minLiveTime, threshold);
      res == Some(UpdateResult(out.ids, out.counted))
      && st'.items == out.items && st'.nextId == st.nextId + out.spawned
      && |out.ids| == |kept| && (forall i :: 0 <= i < |out.ids| ==> out.ids[i].Some?)
      && Known(st.tl, out.counted) && SamplesFive(sample)
      && seen == CountedVisitors(st.tl, out.counted, |out.counted|)
      && |handed| == |out.counted|
      && (forall j :: 0 <= j < |handed| ==> handed[j] == Sampled(st.tl[out.counted[j]], sample))
      && st'.tl == NextTrackingList(st.tl, out.counted, sample, IdValues(out.ids), Observations(kept), frame.now,
                                    TrackIds(out.items))
  }

  /**
   * A frame in which the detector found no face, read by a tracker with
   * no tracks: the tracker answers no ids, nobody is counted, nothing is
   * handed over, and the tracker and `tracking_list` are left empty.
   */
  lemma NoFacesNoTracks(st: FaceState, frame: FrameInput, minFaceSize: real, sample: seq<Face> -> seq<Face>,
                        maxAge: real, minLiveTime: real, threshold: real,
                        res: Option<UpdateResult>, seen: seq<Visitor>, handed: seq<Profile>, st': FaceState)
    requires st.items == [] && frame.detections == Some([])
    requires FrameStep(st, frame, minFaceSize, sample, maxAge, minLiveTime, threshold, res, seen, handed, st')
    ensures res == Some(UpdateResult([], [])) && seen == [] && handed == []
    ensures st' == FaceState([], st.nextId, map[])
  {
    assert LargeFaces([], minFaceSize) == [];
    assert TruncatedBoxes([]) == [];
    var acc := Accepted([], [], frame.now, maxAge, threshold);
    assert Overlaps([], [], threshold) == [];
    assert acc == [];
    assert Rows(acc) == {} && Cols(acc) == {};
    var out := Step([], [], frame.now, st.nextId, maxAge, minLiveTime, threshold);
    assert out.items == [] && out.ids == [] && out.counted == [] && out.spawned == 0;
  }

  /**
   * The first half of a turn: the frame is processed when the detector
   * found something and skipped otherwise. The tracker and the tracking
   * list move as `FrameStep` says, and the frame's visitors join the hour's.
   */
  method ReadFrame(tracker: SimpleTracker, minFaceSize: real, sample: seq<Face> -> seq<Face>, frame: FrameInput,
                   t: Tally, ghost visitors: seq<Visitor>, tl: map<nat, Profile>)
    returns (res: Option<UpdateResult>, t': Tally, tl': map<nat, Profile>, sent: seq<Profile>,
             ghost seen: seq<Visitor>, ghost visitors': seq<Visitor>)
    requires tracker.Valid() && Consistent(t, visitors, tl, tracker.items) && SamplesFive(sample)
    modifies tracker
    ensures tracker.Valid() && Consistent(t', visitors', tl', tracker.items)
    ensures forall j :: 0 <= j < |sent| ==> |sent[j].faces| <= FacesPerHandoff
    ensures (res.None? <==> frame.detections.None?) && |seen| == CountedBy(res) && visitors' == visitors + seen
    ensures FrameStep(FaceState(old(tracker.items), old(tracker.nextId), tl), frame, minFaceSize, sample,
                      tracker.maxAge, tracker.minLiveTime, tracker.disThreshold,
                      res, seen, sent, FaceState(tracker.items, tracker.nextId, tl'))
  {
    res, t', tl', sent, seen, visitors' := None, t, tl, [], [], visitors;
    if frame.detections.Some? {
      var r;
      r, t', tl', sent, visitors' := ProcessFrame(tracker, minFaceSize, t, visitors, tl, frame.detections.value, frame.now, sample);
      res := Some(r);
      seen := CountedVisitors(tl, r.counted, |r.counted|);
    }
  }

  /**
   * One turn of `FaceProcess.run`'s loop: the frame is processed when the
   * detector found something, then the hour is checked and a finished
   * hour's record goes to `storage_updater.update`. `res` is the tracker's
   * answer (`None` for a skipped frame) and `seen` the visitors the frame
   * counted. The tracker takes exactly the frame-level step, the tracking
   * list is updated as in `ProcessFrame`, a finished hour's record is the
   * record of every visitor counted in that hour up to and including this
   * frame, and the storage updater records it.
   */
  method FaceTurn(tracker: SimpleTracker, storage: SU.StorageUpdater, minFaceSize: real, sample: seq<Face> -> seq<Face>,
                  frame: FrameInput, t: Tally, ghost visitors: seq<Visitor>, tl: map<nat, Profile>, lastTime: SU.HourKey)
    returns (res: Option<UpdateResult>, t': Tally, tl': map<nat, Profile>, lastTime': SU.HourKey,
             record: Option<(SU.HourKey, SU.Fields)>, sent: seq<Profile>, ghost seen: seq<Visitor>, ghost visitors': seq<Visitor>)
    requires tracker.Valid() && Consistent(t, visitors, tl, tracker.items) && SamplesFive(sample) && storage.Valid()
    modifies tracker, storage
    ensures tracker.Valid() && Consistent(t', visitors', tl', tracker.items) && storage.Valid()
    ensures forall j :: 0 <= j < |sent| ==> |sent[j].faces| <= FacesPerHandoff
    ensures res.None? <==> frame.detections.None?
    ensures |seen| == CountedBy(res)
    ensures FrameStep(FaceState(old(tracker.items), old(tracker.nextId), tl), frame, minFaceSize, sample,
                      tracker.maxAge, tracker.minLiveTime, tracker.disThreshold,
                      res, seen, sent, FaceState(tracker.items, tracker.nextId, tl'))
    ensures lastTime' == frame.hour
    ensures lastTime == frame.hour ==> record == None && visitors' == visitors + seen
    ensures lastTime != frame.hour ==>
      record == Some((lastTime, HourRecord(visitors + seen))) && visitors' == [] && t' == NoVisitors
    ensures record.Some? ==> BalancedRecord(record.value.1)
    ensures record.Some? ==>
      storage.Contents() == SU.Updated(old(storage.Contents()), storage.sendDataInterval, lastTime, record.value.1,
                                          frame.saveBusy, frame.sendBusy)
    ensures record.None? ==> unchanged(storage)
  {
    ghost var before := storage.Contents();
    res, t', tl', sent, seen, visitors' := ReadFrame(tracker, minFaceSize, sample, frame, t, visitors, tl);
    assert storage.Contents() == before;
    t', lastTime', record, visitors' := StoreHour(storage, t', visitors', lastTime, frame.hour, frame.saveBusy, frame.sendBusy);
  }

  /** Consecutive frames' lists run together: their visitors, or their handed profiles. */
  function Flatten<T>(vss: seq<seq<T>>): seq<T> {
    if vss == [] then [] else Flatten(vss[..|vss| - 1]) + vss[|vss| - 1]
  }

  lemma FlattenSnoc(p: seq<seq<Visitor>>, a: nat, x: seq<Visitor>)
    requires a <= |p|
    ensures (p + [x])[a..] == (p + [x])[a..|p| + 1] == p[a..] + [x]
    ensures Flatten((p + [x])[a..]) == Flatten(p[a..]) + x
  {
    assert (p[a..] + [x])[..|p[a..]|] == p[a..];
  }

  /** The hour in effect when frame `n` is read: the starting hour, or the hour the previous turn saw. */
  function HourBefore(frames: seq<FrameInput>, start: SU.HourKey, n: nat): SU.HourKey
    requires n <= |frames|
  {
    if n == 0 then start else frames[n - 1].hour
  }

  /** The first frame of hour `k`, given the frames that closed the hours before it. */
  function Opens(closeAt: seq<nat>, k: nat): nat
    requires k <= |closeAt|
  {
    if k == 0 then 0 else closeAt[k - 1] + 1
  }

  /** Frame `m` closes an hour: after it the clock shows another hour than before it. */
  predicate ClosesHour(frames: seq<FrameInput>, start: SU.HourKey, m: nat)
    requires m < |frames|
  {
    frames[m].hour != HourBefore(frames, start, m)
  }

  /** `closeAt` is strictly increasing. */
  predicate Increasing(closeAt: seq<nat>) {
    forall k, l :: 0 <= k < l < |closeAt| ==> closeAt[k] < closeAt[l]
  }

  /**
   * `closeAt` lists, in increasing order, exactly those of the first `n`
   * frames that close an hour.
   */
  ghost predicate Closings(frames: seq<FrameInput>, start: SU.HourKey, closeAt: seq<nat>, n: nat)
    requires n <= |frames|
  {
    (forall k :: 0 <= k < |closeAt| ==> closeAt[k] < n)
    && Increasing(closeAt)
    && (forall m :: 0 <= m < n ==> (ClosesHour(frames, start, m) <==> m in closeAt))
  }

  /**
   * `hours[k]`, the visitors of hour `k`, are those counted from the hour's
   * first frame through its closing frame.
   */
  ghost predicate HourSpans(perFrame: seq<seq<Visitor>>, closeAt: seq<nat>, hours: seq<seq<Visitor>>) {
    |closeAt| == |hours|
    && (forall k {:trigger hours[k]} :: 0 <= k < |hours| ==>
          Opens(closeAt, k) <= closeAt[k] < |perFrame| && hours[k] == Flatten(perFrame[Opens(closeAt, k)..closeAt[k] + 1]))
  }

  /** The storage updater's state after recording each hour, with the workers' state at its closing frame. */
  function StoredAll(s: SU.Store, interval: int, emitted: seq<(SU.HourKey, SU.Fields)>, frames: seq<FrameInput>, closeAt: seq<nat>): SU.Store
    requires |closeAt| == |emitted| && forall k :: 0 <= k < |closeAt| ==> closeAt[k] < |frames|
    decreases |emitted|
  {
    if emitted == [] then s
    else
      var k := |emitted| - 1;
      SU.Updated(StoredAll(s, interval, emitted[..k], frames, closeAt[..k]), interval, emitted[k].0, emitted[k].1,
                 frames[closeAt[k]].saveBusy, frames[closeAt[k]].sendBusy)
  }

  /** A frame that closes an hour is the next closing frame. */
  lemma ClosingsSnoc(frames: seq<FrameInput>, start: SU.HourKey, closeAt: seq<nat>, n: nat)
    requires n < |frames| && Closings(frames, start, closeAt, n) && ClosesHour(frames, start, n)
    ensures Closings(frames, start, closeAt + [n], n + 1)
  {
    var c := closeAt + [n];
    forall m | 0 <= m < n + 1
      ensures ClosesHour(frames, start, m) <==> m in c
    {
      assert m in c <==> m in closeAt || m == n;
    }
  }

  /** Hour `k` of `HourSpans` spans the frames from its opening to its closing frame. */
  lemma SpanAt(p: seq<seq<Visitor>>, closeAt: seq<nat>, hours: seq<seq<Visitor>>, k: nat)
    requires HourSpans(p, closeAt, hours) && k < |hours|
    ensures Opens(closeAt, k) <= closeAt[k] < |p| && hours[k] == Flatten(p[Opens(closeAt, k)..closeAt[k] + 1])
  {
    // mentioning `hours[k]` lets `HourSpans`'s quantifier fire for `k`
    assert hours[k] == hours[k];
  }

  /** The closed hours keep their frames when a frame is added. */
  lemma SpansKept(p: seq<seq<Visitor>>, x: seq<Visitor>, closeAt: seq<nat>, hours: seq<seq<Visitor>>)
    requires HourSpans(p, closeAt, hours)
    ensures HourSpans(p + [x], closeAt, hours)
  {
    var q := p + [x];
    forall k | 0 <= k < |hours|
      ensures Opens(closeAt, k) <= closeAt[k] < |q| && hours[k] == Flatten(q[Opens(closeAt, k)..closeAt[k] + 1])
    {
      SpanAt(p, closeAt, hours, k);
      assert q[Opens(closeAt, k)..closeAt[k] + 1] == p[Opens(closeAt, k)..closeAt[k] + 1];
    }
  }


  /** A frame that closes the hour appends the hour's visitors: those of the open hour and the frame's own. */
  lemma SpansClosed(p: seq<seq<Visitor>>, x: seq<Visitor>, closeAt: seq<nat>, hours: seq<seq<Visitor>>)
    requires HourSpans(p, closeAt, hours) && Opens(closeAt, |closeAt|) <= |p|
    ensures HourSpans(p + [x], closeAt + [|p|], hours + [Flatten(p[Opens(closeAt, |closeAt|)..]) + x])
  {
    var c, q := closeAt + [|p|], p + [x];
    var last := Flatten(p[Opens(closeAt, |closeAt|)..]) + x;
    var h := hours + [last];
    forall k | 0 <= k < |h|
      ensures Opens(c, k) <= c[k] < |q| && h[k] == Flatten(q[Opens(c, k)..c[k] + 1])
    {
      if k < |hours| {
        SpanAt(p, closeAt, hours, k);
        assert Opens(c, k) == Opens(closeAt, k) && c[k] == closeAt[k] && h[k] == hours[k];
        assert q[Opens(c, k)..c[k] + 1] == p[Opens(closeAt, k)..closeAt[k] + 1];
      } else {
        FlattenSnoc(p, Opens(closeAt, |closeAt|), x);
        assert Opens(c, k) == Opens(closeAt, |closeAt|) && c[k] == |p| && h[k] == last;
      }
    }
  }

  /** A frame within the hour closes nothing and leaves the closed hours as they were. */
  lemma OpenHour(frames: seq<FrameInput>, start: SU.HourKey, p: seq<seq<Visitor>>, x: seq<Visitor>, closeAt: seq<nat>,
                 hours: seq<seq<Visitor>>, n: nat)
    requires n < |frames| && |p| == n
    requires Closings(frames, start, closeAt, n) && HourSpans(p, closeAt, hours)
    requires !ClosesHour(frames, start, n)
    ensures Closings(frames, start, closeAt, n + 1)
    ensures HourSpans(p + [x], closeAt, hours)
  {
    forall m | 0 <= m < n + 1
      ensures ClosesHour(frames, start, m) <==> m in closeAt
    {
      if m == n {
        assert n !in closeAt;
      }
    }
    SpansKept(p, x, closeAt, hours);
  }

  /** Each of the first `n` frames has the tracker's answer and the visitors it counted. */
  ghost predicate FramesSeen(frames: seq<FrameInput>, n: nat, results: seq<Option<UpdateResult>>, perFrame: seq<seq<Visitor>>) {
    n <= |frames| && |results| == n && |perFrame| == n
    && (forall m :: 0 <= m < n ==> (results[m].None? <==> frames[m].detections.None?))
    && (forall m :: 0 <= m < n ==> |perFrame[m]| == CountedBy(results[m]))
  }

  /**
   * The states `FaceProcess.run` passed through in its first `n` frames:
   * frame `m` took `states[m]` to `states[m + 1]` as `FrameStep` says,
   * answering `results[m]`, counting `perFrame[m]` and handing over
   * `handedPer[m]`.
   */
  ghost predicate Traced(frames: seq<FrameInput>, minFaceSize: real, sample: seq<Face> -> seq<Face>,
                         maxAge: real, minLiveTime: real, threshold: real, n: nat, states: seq<FaceState>,
                         results: seq<Option<UpdateResult>>, perFrame: seq<seq<Visitor>>, handedPer: seq<seq<Profile>>)
  {
    n <= |frames| && |states| == n + 1 && |results| == n && |perFrame| == n && |handedPer| == n
    && forall m :: 0 <= m < n ==>
         FrameAt(frames, minFaceSize, sample, maxAge, minLiveTime, threshold, states, results, perFrame, handedPer, m)
  }

  /** Frame `m` of a trace. */
  ghost predicate FrameAt(frames: seq<FrameInput>, minFaceSize: real, sample: seq<Face> -> seq<Face>,
                          maxAge: real, minLiveTime: real, threshold: real, states: seq<FaceState>,
                          results: seq<Option<UpdateResult>>, perFrame: seq<seq<Visitor>>, handedPer: seq<seq<Profile>>, m: nat)
  {
    m < |frames| && m + 1 < |states| && m < |results| && m < |perFrame| && m < |handedPer|
    && FrameStep(states[m], frames[m], minFaceSize, sample, maxAge, minLiveTime, threshold,
                 results[m], perFrame[m], handedPer[m], states[m + 1])
  }

  /** One more frame extends the trace. */
  lemma TracedSnoc(frames: seq<FrameInput>, minFaceSize: real, sample: seq<Face> -> seq<Face>,
                   maxAge: real, minLiveTime: real, threshold: real, n: nat, states: seq<FaceState>,
                   results: seq<Option<UpdateResult>>, perFrame: seq<seq<Visitor>>, handedPer: seq<seq<Profile>>,
                   res: Option<UpdateResult>, seen: seq<Visitor>, handed: seq<Profile>, st': FaceState)
    requires Traced(frames, minFaceSize, sample, maxAge, minLiveTime, threshold, n, states, results, perFrame, handedPer)
    requires n < |frames|
    requires FrameStep(states[n], frames[n], minFaceSize, sample, maxAge, minLiveTime, threshold, res, seen, handed, st')
    ensures Traced(frames, minFaceSize, sample, maxAge, minLiveTime, threshold, n + 1, states + [st'],
                   results + [res], perFrame + [seen], handedPer + [handed])
  {
    var s', r', p', h' := states + [st'], results + [res], perFrame + [seen], handedPer + [handed];
    forall m | 0 <= m < n + 1
      ensures FrameAt(frames, minFaceSize, sample, maxAge, minLiveTime, threshold, s', r', p', h', m)
    {
      if m < n {
        assert FrameAt(frames, minFaceSize, sample, maxAge, minLiveTime, threshold, states, results, perFrame, handedPer, m);
        assert s'[m] == states[m] && s'[m + 1] == states[m + 1];
      }
    }
  }

  /** Profiles handed over in a row keep at most five faces when every hand-off's profiles do. */
  lemma {:induction false} FlattenHandoffs(hs: seq<seq<Profile>>)
    requires forall m, j :: 0 <= m < |hs| && 0 <= j < |hs[m]| ==> |hs[m][j].faces| <= FacesPerHandoff
    ensures forall j :: 0 <= j < |Flatten(hs)| ==> |Flatten(hs)[j].faces| <= FacesPerHandoff
  {
    if hs != [] {
      FlattenHandoffs(hs[..|hs| - 1]);
    }
  }

  /** Every profile a traced run hands over keeps at most five faces. */
  lemma TracedHandoffs(frames: seq<FrameInput>, minFaceSize: real, sample: seq<Face> -> seq<Face>,
                       maxAge: real, minLiveTime: real, threshold: real, n: nat, states: seq<FaceState>,
                       results: seq<Option<UpdateResult>>, perFrame: seq<seq<Visitor>>, handedPer: seq<seq<Profile>>)
    requires Traced(frames, minFaceSize, sample, maxAge, minLiveTime, threshold, n, states, results, perFrame, handedPer)
    ensures forall j :: 0 <= j < |Flatten(handedPer)| ==> |Flatten(handedPer)[j].faces| <= FacesPerHandoff
  {
    forall m, j | 0 <= m < |handedPer| && 0 <= j < |handedPer[m]|
      ensures |handedPer[m][j].faces| <= FacesPerHandoff
    {
      assert FrameAt(frames, minFaceSize, sample, maxAge, minLiveTime, threshold, states, results, perFrame, handedPer, m);
      var st := states[m];
      var kept := LargeFaces(frames[m].detections.value, minFaceSize);
      var out := Step(st.items, TruncatedBoxes(kept), frames[m].now, st.nextId, maxAge, minLiveTime, threshold);
      SampledFaces(st.tl[out.counted[j]], sample);
    }
    FlattenHandoffs(handedPer);
  }

  /** Hour `k`'s record names the hour in effect before its closing frame and tallies the hour's visitors. */
  ghost predicate Records(frames: seq<FrameInput>, start: SU.HourKey, closeAt: seq<nat>, hours: seq<seq<Visitor>>,
                          emitted: seq<(SU.HourKey, SU.Fields)>)
  {
    |emitted| == |hours| == |closeAt| && (forall k :: 0 <= k < |closeAt| ==> closeAt[k] < |frames|)
    && (forall k :: 0 <= k < |emitted| ==> emitted[k] == (HourBefore(frames, start, closeAt[k]), HourRecord(hours[k])))
  }

  /** The hour in effect after `n` frames, and the visitors counted since that hour opened. */
  ghost predicate OpenHourHolds(frames: seq<FrameInput>, start: SU.HourKey, n: nat, perFrame: seq<seq<Visitor>>,
                                closeAt: seq<nat>, lastTime: SU.HourKey, visitors: seq<Visitor>)
    requires n <= |frames|
  {
    lastTime == HourBefore(frames, start, n)
    && Opens(closeAt, |closeAt|) <= n <= |perFrame| && visitors == Flatten(perFrame[Opens(closeAt, |closeAt|)..])
  }

  /** Every record is balanced, the first closes the starting hour, and consecutive records name different hours. */
  predicate RecordOrder(emitted: seq<(SU.HourKey, SU.Fields)>, start: SU.HourKey, lastTime: SU.HourKey) {
    (forall k :: 0 <= k < |emitted| ==> BalancedRecord(emitted[k].1))
    && (|emitted| > 0 ==> emitted[0].0 == start && emitted[|emitted| - 1].0 != lastTime)
    && (|emitted| == 0 ==> lastTime == start)
    && (forall i, j :: 0 <= i < |emitted| && j == i + 1 && j < |emitted| ==> emitted[i].0 != emitted[j].0)
  }


  /** The bookkeeping of one more frame. */
  lemma FramesSeenSnoc(frames: seq<FrameInput>, n: nat, results: seq<Option<UpdateResult>>, perFrame: seq<seq<Visitor>>,
                       res: Option<UpdateResult>, seen: seq<Visitor>)
    requires FramesSeen(frames, n, results, perFrame) && n < |frames|
    requires (res.None? <==> frames[n].detections.None?) && |seen| == CountedBy(res)
    ensures FramesSeen(frames, n + 1, results + [res], perFrame + [seen])
  {
  }

  /** A closed hour appends its record. */
  lemma RecordsSnoc(frames: seq<FrameInput>, start: SU.HourKey, closeAt: seq<nat>, hours: seq<seq<Visitor>>,
                    emitted: seq<(SU.HourKey, SU.Fields)>, n: nat, vs: seq<Visitor>)
    requires Records(frames, start, closeAt, hours, emitted) && n < |frames|
    ensures Records(frames, start, closeAt + [n], hours + [vs], emitted + [(HourBefore(frames, start, n), HourRecord(vs))])
  {
  }

  /** A closed hour's record is balanced and names the hour before the new one. */
  lemma RecordOrderSnoc(emitted: seq<(SU.HourKey, SU.Fields)>, start: SU.HourKey, lastTime: SU.HourKey,
                        current: SU.HourKey, vs: seq<Visitor>)
    requires RecordOrder(emitted, start, lastTime) && lastTime != current
    ensures RecordOrder(emitted + [(lastTime, HourRecord(vs))], start, current)
  {
    HourRecordIsBalanced(vs);
  }

  /**
   * What `FaceProcess.run` has done after the first `n` frames: the
   * tracker's answer and the counted visitors of each frame, the frames
   * that closed an hour, each closed hour's visitors and record, the hour
   * in effect, and the visitors of the hour still open.
   */
  ghost predicate Ran(frames: seq<FrameInput>, start: SU.HourKey, n: nat, results: seq<Option<UpdateResult>>,
                      perFrame: seq<seq<Visitor>>, closeAt: seq<nat>, hours: seq<seq<Visitor>>,
                      emitted: seq<(SU.HourKey, SU.Fields)>, lastTime: SU.HourKey, visitors: seq<Visitor>)
  {
    n <= |frames|
    && FramesSeen(frames, n, results, perFrame)
    && Closings(frames, start, closeAt, n) && HourSpans(perFrame, closeAt, hours)
    && Records(frames, start, closeAt, hours, emitted)
    && OpenHourHolds(frames, start, n, perFrame, closeAt, lastTime, visitors)
    && RecordOrder(emitted, start, lastTime)
  }

  /** The run's bookkeeping, assembled from its parts. */
  lemma RanJoin(frames: seq<FrameInput>, start: SU.HourKey, n: nat, results: seq<Option<UpdateResult>>,
                perFrame: seq<seq<Visitor>>, closeAt: seq<nat>, hours: seq<seq<Visitor>>,
                emitted: seq<(SU.HourKey, SU.Fields)>, lastTime: SU.HourKey, visitors: seq<Visitor>)
    requires n <= |frames|
    requires FramesSeen(frames, n, results, perFrame)
    requires Closings(frames, start, closeAt, n)
    requires HourSpans(perFrame, closeAt, hours)
    requires Records(frames, start, closeAt, hours, emitted)
    requires OpenHourHolds(frames, start, n, perFrame, closeAt, lastTime, visitors)
    requires RecordOrder(emitted, start, lastTime)
    ensures Ran(frames, start, n, results, perFrame, closeAt, hours, emitted, lastTime, visitors)
  {
  }

  /** The frames, closings and spans after a frame that closes the hour: the closed hour's visitors are appended and an empty hour opens. */
  lemma ClosedSpans(frames: seq<FrameInput>, start: SU.HourKey, n: nat, results: seq<Option<UpdateResult>>,
                    perFrame: seq<seq<Visitor>>, closeAt: seq<nat>, hours: seq<seq<Visitor>>,
                    lastTime: SU.HourKey, visitors: seq<Visitor>, res: Option<UpdateResult>, seen: seq<Visitor>)
    requires n < |frames|
    requires FramesSeen(frames, n, results, perFrame)
    requires Closings(frames, start, closeAt, n)
    requires HourSpans(perFrame, closeAt, hours)
    requires OpenHourHolds(frames, start, n, perFrame, closeAt, lastTime, visitors)
    requires (res.None? <==> frames[n].detections.None?) && |seen| == CountedBy(res)
    requires lastTime != frames[n].hour
    ensures FramesSeen(frames, n + 1, results + [res], perFrame + [seen])
    ensures Closings(frames, start, closeAt + [n], n + 1)
    ensures HourSpans(perFrame + [seen], closeAt + [n], hours + [visitors + seen])
    ensures OpenHourHolds(frames, start, n + 1, perFrame + [seen], closeAt + [n], frames[n].hour, [])
  {
    var q, c, h := perFrame + [seen], closeAt + [n], hours + [visitors + seen];
    assert FramesSeen(frames, n + 1, results + [res], q) by {
      FramesSeenSnoc(frames, n, results, perFrame, res, seen);
    }
    assert Closings(frames, start, c, n + 1) by {
      ClosingsSnoc(frames, start, closeAt, n);
    }
    assert HourSpans(q, c, h) by {
      SpansClosed(perFrame, seen, closeAt, hours);
    }
    assert OpenHourHolds(frames, start, n + 1, q, c, frames[n].hour, []) by {
      assert q[Opens(c, |c|)..] == [];
    }
  }

  /** A turn whose frame closes the hour appends the hour's visitors and record and opens an empty hour. */
  lemma RanClosed(frames: seq<FrameInput>, start: SU.HourKey, n: nat, results: seq<Option<UpdateResult>>,
                  perFrame: seq<seq<Visitor>>, closeAt: seq<nat>, hours: seq<seq<Visitor>>,
                  emitted: seq<(SU.HourKey, SU.Fields)>, lastTime: SU.HourKey, visitors: seq<Visitor>,
                  res: Option<UpdateResult>, seen: seq<Visitor>)
    requires Ran(frames, start, n, results, perFrame, closeAt, hours, emitted, lastTime, visitors) && n < |frames|
    requires (res.None? <==> frames[n].detections.None?) && |seen| == CountedBy(res)
    requires lastTime != frames[n].hour
    ensures Ran(frames, start, n + 1, results + [res], perFrame + [seen], closeAt + [n], hours + [visitors + seen],
                emitted + [(lastTime, HourRecord(visitors + seen))], frames[n].hour, [])
  {
    ClosedSpans(frames, start, n, results, perFrame, closeAt, hours, lastTime, visitors, res, seen);
    RecordsSnoc(frames, start, closeAt, hours, emitted, n, visitors + seen);
    RecordOrderSnoc(emitted, start, lastTime, frames[n].hour, visitors + seen);
    RanJoin(frames, start, n + 1, results + [res], perFrame + [seen], closeAt + [n], hours + [visitors + seen],
            emitted + [(lastTime, HourRecord(visitors + seen))], frames[n].hour, []);
  }



  /** A turn whose frame stays within the hour adds the frame's visitors to the open hour. */
  lemma RanOpen(frames: seq<FrameInput>, start: SU.HourKey, n: nat, results: seq<Option<UpdateResult>>,
                perFrame: seq<seq<Visitor>>, closeAt: seq<nat>, hours: seq<seq<Visitor>>,
                emitted: seq<(SU.HourKey, SU.Fields)>, lastTime: SU.HourKey, visitors: seq<Visitor>,
                res: Option<UpdateResult>, seen: seq<Visitor>)
    requires n < |frames|
    requires FramesSeen(frames, n, results, perFrame)
    requires Closings(frames, start, closeAt, n)
    requires HourSpans(perFrame, closeAt, hours)
    requires Records(frames, start, closeAt, hours, emitted)
    requires OpenHourHolds(frames, start, n, perFrame, closeAt, lastTime, visitors)
    requires RecordOrder(emitted, start, lastTime)
    requires (res.None? <==> frames[n].detections.None?) && |seen| == CountedBy(res)
    requires lastTime == frames[n].hour
    ensures Ran(frames, start, n + 1, results + [res], perFrame + [seen], closeAt, hours, emitted, lastTime, visitors + seen)
  {
    FramesSeenSnoc(frames, n, results, perFrame, res, seen);
    OpenHour(frames, start, perFrame, seen, closeAt, hours, n);
    FlattenSnoc(perFrame, Opens(closeAt, |closeAt|), seen);
    assert OpenHourHolds(frames, start, n + 1, perFrame + [seen], closeAt, lastTime, visitors + seen);
  }

  /** Recording one more hour is one more `update` on the storage updater. */
  lemma StoredSnoc(s: SU.Store, interval: int, emitted: seq<(SU.HourKey, SU.Fields)>, frames: seq<FrameInput>,
                   closeAt: seq<nat>, r: (SU.HourKey, SU.Fields), n: nat)
    requires |closeAt| == |emitted| && (forall k :: 0 <= k < |closeAt| ==> closeAt[k] < |frames|) && n < |frames|
    ensures StoredAll(s, interval, emitted + [r], frames, closeAt + [n])
         == SU.Updated(StoredAll(s, interval, emitted, frames, closeAt), interval, r.0, r.1, frames[n].saveBusy, frames[n].sendBusy)
  {
    assert (emitted + [r])[..|emitted|] == emitted;
    assert (closeAt + [n])[..|closeAt|] == closeAt;
  }

  /** One turn of the run, with its bookkeeping: the run's invariant holds for one more frame. */
  method RunTurn(tracker: SimpleTracker, storage: SU.StorageUpdater, minFaceSize: real, sample: seq<Face> -> seq<Face>,
                 frames: seq<FrameInput>, start: SU.HourKey, n: nat, t: Tally, tl: map<nat, Profile>, lastTime: SU.HourKey,
                 results: seq<Option<UpdateResult>>, emitted: seq<(SU.HourKey, SU.Fields)>, ghost visitors: seq<Visitor>,
                 ghost perFrame: seq<seq<Visitor>>, ghost closeAt: seq<nat>, ghost hours: seq<seq<Visitor>>, ghost s0: SU.Store,
                 ghost states: seq<FaceState>, ghost handedPer: seq<seq<Profile>>)
    returns (t': Tally, tl': map<nat, Profile>, lastTime': SU.HourKey, results': seq<Option<UpdateResult>>,
             emitted': seq<(SU.HourKey, SU.Fields)>, handed: seq<Profile>, ghost visitors': seq<Visitor>,
             ghost perFrame': seq<seq<Visitor>>, ghost closeAt': seq<nat>, ghost hours': seq<seq<Visitor>>,
             ghost states': seq<FaceState>)
    requires n < |frames|
    requires Traced(frames, minFaceSize, sample, tracker.maxAge, tracker.minLiveTime, tracker.disThreshold,
                    n, states, results, perFrame, handedPer)
    requires states[n] == FaceState(tracker.items, tracker.nextId, tl)
    requires tracker.Valid() && Consistent(t, visitors, tl, tracker.items) && SamplesFive(sample) && storage.Valid()
    requires Ran(frames, start, n, results, perFrame, closeAt, hours, emitted, lastTime, visitors)
    requires storage.Contents() == StoredAll(s0, storage.sendDataInterval, emitted, frames, closeAt)
    modifies tracker, storage
    ensures tracker.Valid() && Consistent(t', visitors', tl', tracker.items) && storage.Valid()
    ensures Ran(frames, start, n + 1, results', perFrame', closeAt', hours', emitted', lastTime', visitors')
    ensures storage.Contents() == StoredAll(s0, storage.sendDataInterval, emitted', frames, closeAt')
    ensures forall j :: 0 <= j < |handed| ==> |handed[j].faces| <= FacesPerHandoff
    ensures Traced(frames, minFaceSize, sample, tracker.maxAge, tracker.minLiveTime, tracker.disThreshold,
                   n + 1, states', results', perFrame', handedPer + [handed])
    ensures states'[0] == states[0] && states'[n + 1] == FaceState(tracker.items, tracker.nextId, tl')
  {
    var res, record;
    ghost var seen;
    res, t', tl', lastTime', record, handed, seen, visitors' :=
      FaceTurn(tracker, storage, minFaceSize, sample, frames[n], t, visitors, tl, lastTime);
    states' := states + [FaceState(tracker.items, tracker.nextId, tl')];
    TracedSnoc(frames, minFaceSize, sample, tracker.maxAge, tracker.minLiveTime, tracker.disThreshold, n, states,
               results, perFrame, handedPer, res, seen, handed, FaceState(tracker.items, tracker.nextId, tl'));
    if record.Some? {
      RanClosed(frames, start, n, results, perFrame, closeAt, hours, emitted, lastTime, visitors, res, seen);
      StoredSnoc(s0, storage.sendDataInterval, emitted, frames, closeAt, record.value, n);
      emitted', closeAt', hours' := emitted + [record.value], closeAt + [n], hours + [visitors + seen];
    } else {
      RanOpen(frames, start, n, results, perFrame, closeAt, hours, emitted, lastTime, visitors, res, seen);
      emitted', closeAt', hours' := emitted, closeAt, hours;
    }
    perFrame', results' := perFrame + [seen], results + [res];
  }

  /** The loop of `FaceProcess.run`: after every frame, the run's bookkeeping and its trace hold for the frames read so far. */
  method RunFrames(tracker: SimpleTracker, storage: SU.StorageUpdater, minFaceSize: real, start: SU.HourKey,
                   sample: seq<Face> -> seq<Face>, frames: seq<FrameInput>)
    returns (emitted: seq<(SU.HourKey, SU.Fields)>, sent: seq<Profile>, results: seq<Option<UpdateResult>>,
             lastTime: SU.HourKey, ghost visitors: seq<Visitor>, ghost perFrame: seq<seq<Visitor>>,
             ghost closeAt: seq<nat>, ghost hours: seq<seq<Visitor>>, ghost states: seq<FaceState>,
             ghost handedPer: seq<seq<Profile>>)
    requires tracker.Valid() && tracker.items == [] && SamplesFive(sample) && storage.Valid()
    modifies tracker, storage
    ensures tracker.Valid() && storage.Valid()
    ensures Ran(frames, start, |frames|, results, perFrame, closeAt, hours, emitted, lastTime, visitors)
    ensures storage.Contents() == StoredAll(old(storage.Contents()), storage.sendDataInterval, emitted, frames, closeAt)
    ensures Traced(frames, minFaceSize, sample, tracker.maxAge, tracker.minLiveTime, tracker.disThreshold,
                   |frames|, states, results, perFrame, handedPer)
    ensures states[0] == FaceState([], old(tracker.nextId), map[])
    ensures tracker.items == states[|frames|].items && tracker.nextId == states[|frames|].nextId
    ensures sent == Flatten(handedPer)
  {
    var t := NoVisitors;
    var tl: map<nat, Profile> := map[];
    lastTime := start;
    visitors := [];
    NothingCounted(visitors);
    emitted, sent, results, perFrame, closeAt, hours := [], [], [], [], [], [];
    states, handedPer := [FaceState([], tracker.nextId, tl)], [];
    ghost var s0 := storage.Contents();
    for n := 0 to |frames|
      invariant tracker.Valid() && Consistent(t, visitors, tl, tracker.items) && storage.Valid()
      invariant Ran(frames, start, n, results, perFrame, closeAt, hours, emitted, lastTime, visitors)
      invariant storage.Contents() == StoredAll(s0, storage.sendDataInterval, emitted, frames, closeAt)
      invariant Traced(frames, minFaceSize, sample, tracker.maxAge, tracker.minLiveTime, tracker.disThreshold,
                       n, states, results, perFrame, handedPer)
      invariant states[0] == FaceState([], old(tracker.nextId), map[])
      invariant states[n] == FaceState(tracker.items, tracker.nextId, tl)
      invariant sent == Flatten(handedPer)
    {
      var handed;
      t, tl, lastTime, results, emitted, handed, visitors, perFrame, closeAt, hours, states :=
        RunTurn(tracker, storage, minFaceSize, sample, frames, start, n, t, tl, lastTime, results, emitted, visitors,
                perFrame, closeAt, hours, s0, states, handedPer);
      assert (handedPer + [handed])[..n] == handedPer;
      sent, handedPer := sent + handed, handedPer + [handed];
    }
  }

  /**
   * `FaceProcess.run` over a stream of frames, starting in hour `start`
   * with a fresh tracker. Frame by frame, the tracker's answer, the
   * visitors counted, the profiles handed over and the next tracker state
   * and tracking list are those of `FrameStep` from the previous frame's
   * state; `sent` is every frame's hand-off in order. An hour is closed
   * exactly by a frame after which the clock shows a new hour; each
   * closed hour's record tallies exactly the visitors counted by its
   * frames, and the storage updater records the closed hours in order.
   * Every record is balanced, the first closes the starting hour, and
   * two records in a row name different hours.
   */
  method FaceRun(tracker: SimpleTracker, storage: SU.StorageUpdater, minFaceSize: real, start: SU.HourKey,
                 sample: seq<Face> -> seq<Face>, frames: seq<FrameInput>)
    returns (emitted: seq<(SU.HourKey, SU.Fields)>, sent: seq<Profile>, results: seq<Option<UpdateResult>>,
             ghost perFrame: seq<seq<Visitor>>, ghost closeAt: seq<nat>, ghost hours: seq<seq<Visitor>>,
             ghost states: seq<FaceState>, ghost handedPer: seq<seq<Profile>>)
    requires tracker.Valid() && tracker.items == [] && SamplesFive(sample) && storage.Valid()
    modifies tracker, storage
    ensures tracker.Valid() && storage.Valid()
    ensures |results| == |frames| && |perFrame| == |frames|
    ensures forall n :: 0 <= n < |frames| ==> (results[n].None? <==> frames[n].detections.None?)
    ensures forall n :: 0 <= n < |frames| ==> |perFrame[n]| == CountedBy(results[n])
    ensures Closings(frames, start, closeAt, |frames|) && HourSpans(perFrame, closeAt, hours)
    ensures |emitted| == |hours|
    ensures forall k :: 0 <= k < |emitted| ==> emitted[k] == (HourBefore(frames, start, closeAt[k]), HourRecord(hours[k]))
    ensures storage.Contents() == StoredAll(old(storage.Contents()), storage.sendDataInterval, emitted, frames, closeAt)
    ensures forall k :: 0 <= k < |emitted| ==> BalancedRecord(emitted[k].1)
    ensures |emitted| > 0 ==> emitted[0].0 == start
    ensures forall i, j :: 0 <= i < |emitted| && j == i + 1 && j < |emitted| ==> emitted[i].0 != emitted[j].0
    ensures forall j :: 0 <= j < |sent| ==> |sent[j].faces| <= FacesPerHandoff
    ensures Traced(frames, minFaceSize, sample, tracker.maxAge, tracker.minLiveTime, tracker.disThreshold,
                   |frames|, states, results, perFrame, handedPer)
    ensures states[0] == FaceState([], old(tracker.nextId), map[])
    ensures tracker.items == states[|frames|].items && tracker.nextId == states[|frames|].nextId
    ensures sent == Flatten(handedPer)
  {
    var lastTime;
    ghost var visitors;
    emitted, sent, results, lastTime, visitors, perFrame, closeAt, hours, states, handedPer :=
      RunFrames(tracker, storage, minFaceSize, start, sample, frames);
    TracedHandoffs(frames, minFaceSize, sample, tracker.maxAge, tracker.minLiveTime, tracker.disThreshold,
                   |frames|, states, results, perFrame, handedPer);
  }
}
