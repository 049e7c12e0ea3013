/**
 * The bookkeeping of tracker_2.py's embedding tracker `Tracker`: the
 * bounded frame buffer, the gallery index, the greedy matching on a
 * distance matrix, the confirmation and id-allocation rules, and the
 * expiry of dead tracks.
 *
 * The re-identification network, `get_features` and `re_ranking` are
 * foreign: a detection's feature is a token `Feature`, a frame a token
 * `Frame`, and the distance matrix `re_ranking` produces is a parameter.
 * `random.randint` becomes the chooser parameter `pick`.
 */
module Tracker2 {
  import opened Wrappers
  import opened PairSort
  import MP = MainPipeline

  const MaxBufferSize: nat := 100
  /** `MAX_AGE`, five minutes in seconds. */
  const MaxAge: real := 300.0
  const MaxGallerySize: nat := 30
  const Threshold: real := 0.45
  const MinMatchCount: int := 5
  /** The live time (three minutes) and the match ratio a dead track needs to be counted. */
  const MinLiveTime: real := 180.0
  const MinMatchRatio: real := 0.1

  /** An embedding vector, as a token. */
  type Feature = nat
  /** A video frame, as a token. */
  type Frame = nat

  /** A `frame_buffer` entry `(time_stamp, frame)`. */
  datatype Buffered = Buffered(timeStamp: real, frame: Frame)

  /** A `tracking` entry. */
  datatype Track = Track(matchCount: int, updateCount: int, firstTime: real, lastTime: real, vectors: seq<Feature>)

  // ---------------------------------------------------------------- the frame buffer

  /** The buffered frame ids above `k`. */
  function Above(keys: set<int>, k: int): set<int> {
    set j | j in keys && j > k
  }

  /** The `n` largest of `keys`: those with fewer than `n` keys above them. */
  function Largest(keys: set<int>, n: nat): set<int> {
    set k | k in keys && |Above(keys, k)| < n
  }

  /** `update_frame`'s trimming: past `MAX_BUFFER_SIZE` frames, only the largest frame ids stay. */
  function Trimmed(b: map<int, Buffered>): map<int, Buffered> {
    if |b| > MaxBufferSize then map k | k in Largest(b.Keys, MaxBufferSize) :: b[k] else b
  }

  lemma MaxExists(s: set<int>) returns (m: int)
    requires s != {}
    ensures m in s && forall x :: x in s ==> x <= m
    decreases s
  {
    var x := Pick(s);
    if s == {x} {
      m := x;
    } else {
      var m' := MaxExists(s - {x});
      m := if x < m' then m' else x;
      forall y | y in s
        ensures y <= m
      {
        if y != x {
          assert y in s - {x};
        }
      }
    }
  }

  /** Removing the largest key lowers every other key's count of keys above by one. */
  lemma LargestWithoutMax(keys: set<int>, n: nat, m: int)
    requires m in keys && n > 0 && forall x :: x in keys ==> x <= m
    ensures Largest(keys, n) == Largest(keys - {m}, n - 1) + {m}
  {
    forall k | k in keys - {m}
      ensures |Above(keys, k)| == |Above(keys - {m}, k)| + 1
    {
      assert Above(keys, k) == Above(keys - {m}, k) + {m};
    }
    assert Above(keys, m) == {};
  }

  /** With no keys, or none wanted, nothing is kept. */
  lemma LargestNone(keys: set<int>, n: nat)
    requires keys == {} || n == 0
    ensures Largest(keys, n) == {}
  {
  }

  /** Dropping the largest key leaves one key fewer among the largest. */
  lemma LargestStep(keys: set<int>, n: nat) returns (m: int)
    requires keys != {} && n > 0
    ensures m in keys && |Largest(keys, n)| == |Largest(keys - {m}, n - 1)| + 1
  {
    m := MaxExists(keys);
    LargestWithoutMax(keys, n, m);
    assert m !in Largest(keys - {m}, n - 1);
  }

  /** The `n` largest keys are `n` keys, or all of them when there are fewer. */
  lemma {:induction false} LargestCount(keys: set<int>, n: nat)
    ensures |Largest(keys, n)| == if |keys| < n then |keys| else n
    decreases keys
  {
    if keys == {} || n == 0 {
      LargestNone(keys, n);
    } else {
      var m := LargestStep(keys, n);
      LargestCount(keys - {m}, n - 1);
      assert |keys - {m}| == |keys| - 1;
    }
  }

  /** Every kept frame id is above every dropped one. */
  lemma LargestAbove(keys: set<int>, n: nat, kept: int, dropped: int)
    requires kept in Largest(keys, n) && dropped in keys - Largest(keys, n)
    ensures dropped < kept
  {
    if kept < dropped {
      assert Above(keys, dropped) + {dropped} <= Above(keys, kept);
      SubsetCount(Above(keys, dropped) + {dropped}, Above(keys, kept));
    }
  }

  lemma {:induction false} SubsetCount(a: set<int>, b: set<int>)
    requires a <= b
    ensures |a| <= |b|
    decreases b
  {
    if a != {} {
      var x := Pick(a);
      SubsetCount(a - {x}, b - {x});
    }
  }

  /**
   * After trimming, the buffer holds at most `MAX_BUFFER_SIZE` frames,
   * exactly `MAX_BUFFER_SIZE` when it overflowed, keeps the entries it
   * keeps unchanged, and every kept frame id is above every dropped one.
   */
  lemma TrimmedKeepsLargest(b: map<int, Buffered>)
    ensures |Trimmed(b)| == if |b| > MaxBufferSize then MaxBufferSize else |b|
    ensures forall k :: k in Trimmed(b) ==> k in b && Trimmed(b)[k] == b[k]
    ensures forall k, j :: k in Trimmed(b) && j in b && j !in Trimmed(b) ==> j < k
  {
    if |b| > MaxBufferSize {
      LargestCount(b.Keys, MaxBufferSize);
      assert Trimmed(b).Keys == Largest(b.Keys, MaxBufferSize);
      forall k, j | k in Trimmed(b) && j in b && j !in Trimmed(b)
        ensures j < k
      {
        LargestAbove(b.Keys, MaxBufferSize, k, j);
      }
    }
  }

  /** The entries of `b` still present while the keys `remaining` have not been looked at. */
  function Without(b: map<int, Buffered>, drop: set<int>, remaining: set<int>): map<int, Buffered> {
    map k | k in b && (k in remaining || k !in drop) :: b[k]
  }

  lemma WithoutStep(b: map<int, Buffered>, drop: set<int>, remaining: set<int>, k: int)
    requires k in remaining
    ensures Without(b, drop, remaining - {k}) == if k in drop then Without(b, drop, remaining) - {k} else Without(b, drop, remaining)
  {
  }

  /** Deletes the keys `drop` from `b`, one at a time. */
  method DeleteKeys(b: map<int, Buffered>, drop: set<int>) returns (r: map<int, Buffered>)
    ensures r == (map k | k in b && k !in drop :: b[k])
  {
    var remaining := b.Keys;
    r := b;
    while remaining != {}
      invariant r == Without(b, drop, remaining)
      decreases remaining
    {
      ghost var someKey := Pick(remaining);
      var k :| k in remaining;
      WithoutStep(b, drop, remaining, k);
      if k in drop {
        r := r - {k};
      }
      remaining := remaining - {k};
    }
  }

  /** `update_detection_result`'s first loop: buffered frames older than `frame_id` are dropped. */
  function OlderDropped(b: map<int, Buffered>, frameId: int): (r: map<int, Buffered>)
    ensures forall k :: k in r <==> k in b && k >= frameId
    ensures forall k :: k in r ==> r[k] == b[k]
  {
    map k | k in b && k >= frameId :: b[k]
  }

  // ---------------------------------------------------------------- the gallery index

  /** A `gallery_info` entry `(tid, len(vectors))`: track `tid` owns the next `length` gallery rows. */
  datatype Slice = Slice(tid: nat, length: nat)

  /** `gallery_info` over the track ids below `n`, in ascending id order. */
  function GalleryInfo(tracking: map<nat, Track>, n: nat): seq<Slice> {
    if n == 0 then []
    else GalleryInfo(tracking, n - 1) + (if n - 1 in tracking then [Slice(n - 1, |tracking[n - 1].vectors|)] else [])
  }

  /** `info` lists every track below `n` once, in ascending id order, with the size of its vector gallery. */
  predicate ListsTracks(tracking: map<nat, Track>, n: nat, info: seq<Slice>) {
    (forall j :: 0 <= j < |info| ==> info[j].tid < n && info[j].tid in tracking && info[j].length == |tracking[info[j].tid].vectors|)
    && (forall i, j :: 0 <= i < j < |info| ==> info[i].tid < info[j].tid)
    && CoversTracks(tracking, n, info)
  }

  /** Every track below `n` has an entry in `info`. */
  predicate CoversTracks(tracking: map<nat, Track>, n: nat, info: seq<Slice>) {
    forall tid :: tid < n && tid in tracking ==> exists j :: 0 <= j < |info| && info[j].tid == tid
  }

  /** `gallery_info` lists the tracks in ascending id order, each once. */
  lemma GalleryInfoLists(tracking: map<nat, Track>, n: nat)
    ensures ListsTracks(tracking, n, GalleryInfo(tracking, n))
  {
    GalleryInfoEntries(tracking, n);
    GalleryInfoCovers(tracking, n);
  }

  lemma {:induction false} GalleryInfoEntries(tracking: map<nat, Track>, n: nat)
    ensures forall j :: 0 <= j < |GalleryInfo(tracking, n)| ==>
      GalleryInfo(tracking, n)[j].tid < n && GalleryInfo(tracking, n)[j].tid in tracking
      && GalleryInfo(tracking, n)[j].length == |tracking[GalleryInfo(tracking, n)[j].tid].vectors|
    ensures forall i, j :: 0 <= i < j < |GalleryInfo(tracking, n)| ==> GalleryInfo(tracking, n)[i].tid < GalleryInfo(tracking, n)[j].tid
  {
    if n > 0 {
      GalleryInfoEntries(tracking, n - 1);
      var prev := GalleryInfo(tracking, n - 1);
      var info := GalleryInfo(tracking, n);
      assert forall j :: 0 <= j < |prev| ==> info[j] == prev[j];
      if n - 1 in tracking {
        assert |info| == |prev| + 1 && info[|prev|] == Slice(n - 1, |tracking[n - 1].vectors|);
        forall i, j | 0 <= i < j < |info|
          ensures info[i].tid < info[j].tid
        {
          if j == |prev| {
            assert info[i] == prev[i];
          }
        }
      } else {
        assert info == prev;
      }
    }
  }

  lemma {:induction false} GalleryInfoCovers(tracking: map<nat, Track>, n: nat)
    ensures CoversTracks(tracking, n, GalleryInfo(tracking, n))
  {
    if n > 0 {
      GalleryInfoCovers(tracking, n - 1);
      var prev := GalleryInfo(tracking, n - 1);
      var info := GalleryInfo(tracking, n);
      assert forall j :: 0 <= j < |prev| ==> info[j] == prev[j];
      forall tid: nat | tid < n && tid in tracking
        ensures exists j :: 0 <= j < |info| && info[j].tid == tid
      {
        if tid < n - 1 {
          var j :| 0 <= j < |prev| && prev[j].tid == tid;
          assert info[j] == prev[j];
        } else {
          assert info == prev + [Slice(n - 1, |tracking[n - 1].vectors|)];
          assert info[|prev|].tid == tid;
        }
      }
    }
  }

  /** The loop of `get_gallery` that fills `gallery_info`, over the track ids in ascending order. */
  method GetGalleryInfo(tracking: map<nat, Track>, nextId: nat) returns (info: seq<Slice>)
    ensures info == GalleryInfo(tracking, nextId)
  {
    info := [];
    for tid := 0 to nextId
      invariant info == GalleryInfo(tracking, tid)
    {
      if tid in tracking {
        info := info + [Slice(tid, |tracking[tid].vectors|)];
      }
    }
  }

  /** The number of gallery rows: the height of the stacked gallery. */
  function Total(info: seq<Slice>): nat {
    if info == [] then 0 else info[0].length + Total(info[1..])
  }

  /** The first gallery row of slice `j`. */
  function Offset(info: seq<Slice>, j: nat): nat
    requires j <= |info|
  {
    if j == 0 then 0 else info[0].length + Offset(info[1..], j - 1)
  }

  /** The owner of gallery row `index`, as `_index_to_id` walks the slices; `None` past the last row. */
  function Owner(info: seq<Slice>, index: nat): Option<nat> {
    if info == [] then None
    else if index < info[0].length then Some(info[0].tid)
    else Owner(info[1..], index - info[0].length)
  }

  /** Row `index` belongs to the slice that contains it; rows past the gallery belong to no track. */
  lemma {:induction false} OwnerIsSlice(info: seq<Slice>, j: nat, index: nat)
    requires j < |info| && Offset(info, j) <= index < Offset(info, j) + info[j].length
    ensures Owner(info, index) == Some(info[j].tid)
  {
    if j > 0 {
      OwnerIsSlice(info[1..], j - 1, index - info[0].length);
    }
  }

  /** A row has an owner exactly when it lies within the gallery, and the owner is one of the listed tracks. */
  lemma {:induction false} OwnerDefined(info: seq<Slice>, index: nat)
    ensures Owner(info, index).Some? <==> index < Total(info)
    ensures Owner(info, index).Some? ==> exists j :: 0 <= j < |info| && info[j].tid == Owner(info, index).value
  {
    if info != [] && index >= info[0].length {
      OwnerDefined(info[1..], index - info[0].length);
      if Owner(info, index).Some? {
        var j :| 0 <= j < |info[1..]| && info[1..][j].tid == Owner(info, index).value;
        assert info[j + 1].tid == Owner(info, index).value;
      }
    }
  }

  /** `_index_to_id`. */
  method IndexToId(info: seq<Slice>, index: nat) returns (r: Option<nat>)
    ensures r == Owner(info, index)
  {
    var rest: nat := index;
    for k := 0 to |info|
      invariant Owner(info[k..], rest) == Owner(info, index)
    {
      assert info[k..][1..] == info[k + 1..];
      if rest < info[k].length {
        return Some(info[k].tid);
      }
      rest := rest - info[k].length;
    }
    return None;
  }

  // ---------------------------------------------------------------- match_id

  /** The tuples `(distmat[i][j], i, j)` of row `i` for the first `m` columns. */
  function RowPairs(row: seq<real>, i: nat, m: nat): seq<ScoredPair>
    requires m <= |row|
  {
    if m == 0 then [] else RowPairs(row, i, m - 1) + [ScoredPair(row[m - 1], i, m - 1)]
  }

  /** `pairs` before sorting, after the first `n` rows. */
  function AllPairs(distmat: seq<seq<real>>, n: nat): seq<ScoredPair>
    requires n <= |distmat|
  {
    if n == 0 then [] else AllPairs(distmat, n - 1) + RowPairs(distmat[n - 1], n - 1, |distmat[n - 1]|)
  }

  lemma {:induction false} RowPairsMembers(row: seq<real>, i: nat, m: nat, p: ScoredPair)
    requires m <= |row|
    ensures p in RowPairs(row, i, m) <==> p.row == i && p.col < m && p.score == row[p.col]
  {
    if m > 0 {
      RowPairsMembers(row, i, m - 1, p);
    }
  }

  /** Every matrix entry is one tuple of `pairs`, and nothing else is. */
  lemma {:induction false} AllPairsMembers(distmat: seq<seq<real>>, n: nat, p: ScoredPair)
    requires n <= |distmat|
    ensures p in AllPairs(distmat, n) <==> p.row < n && p.col < |distmat[p.row]| && p.score == distmat[p.row][p.col]
  {
    if n > 0 {
      AllPairsMembers(distmat, n - 1, p);
      RowPairsMembers(distmat[n - 1], n - 1, |distmat[n - 1]|, p);
      var prev, row := AllPairs(distmat, n - 1), RowPairs(distmat[n - 1], n - 1, |distmat[n - 1]|);
      assert AllPairs(distmat, n) == prev + row;
      assert p in prev + row <==> p in prev || p in row;
      if p.row == n - 1 {
        assert p !in prev;
      } else {
        assert p !in row;
      }
    }
  }

  /** `re_ranking` returns one row per detection and one column per gallery row. */
  predicate Rectangular(distmat: seq<seq<real>>, width: nat) {
    forall i :: 0 <= i < |distmat| ==> |distmat[i]| == width
  }

  /** The position of the first tuple from `k` on whose distance is above `THRESHOLD`, where the scan breaks. */
  function Cut(s: seq<ScoredPair>, k: nat): (c: nat)
    requires k <= |s|
    ensures k <= c <= |s|
    decreases |s| - k
  {
    if k == |s| || s[k].score > Threshold then k else Cut(s, k + 1)
  }

  /**
   * In a sorted list the scan stops exactly before the first tuple above the
   * threshold: the tuples it visits are those at most `THRESHOLD`, so the
   * threshold is inclusive.
   */
  lemma {:induction false} CutAtThreshold(s: seq<ScoredPair>, k: nat)
    requires k <= |s| && Sorted(s)
    ensures forall j :: k <= j < |s| ==> (j < Cut(s, k) <==> s[j].score <= Threshold)
    decreases |s| - k
  {
    if k < |s| && s[k].score <= Threshold {
      CutAtThreshold(s, k + 1);
    }
  }

  /** The two lists `matched_row` and `matched_id` `match_id` returns. */
  datatype Matching = Matching(rows: seq<nat>, ids: seq<nat>)

  /** The greedy pass over the visited tuples: a tuple is taken when neither its row nor its owner is taken yet. */
  function Greedy(s: seq<ScoredPair>, info: seq<Slice>): Matching
    requires forall p :: p in s ==> p.col < Total(info)
  {
    if s == [] then Matching([], [])
    else
      var m := Greedy(s[..|s| - 1], info);
      var p := s[|s| - 1];
      OwnerDefined(info, p.col);
      var tid := Owner(info, p.col).value;
      if p.row !in m.rows && tid !in m.ids then Matching(m.rows + [p.row], m.ids + [tid]) else m
  }

  /** What `match_id` returns for the distance matrix `distmat`. */
  function MatchOf(distmat: seq<seq<real>>, info: seq<Slice>): Matching
    requires Rectangular(distmat, Total(info))
  {
    var sorted := Sort(AllPairs(distmat, |distmat|));
    SortedCols(distmat, info, sorted);
    Greedy(sorted[..Cut(sorted, 0)], info)
  }

  lemma SortedCols(distmat: seq<seq<real>>, info: seq<Slice>, sorted: seq<ScoredPair>)
    requires Rectangular(distmat, Total(info))
    requires multiset(sorted) == multiset(AllPairs(distmat, |distmat|))
    ensures forall p :: p in sorted ==> p.row < |distmat| && p.col < Total(info) && p.score == distmat[p.row][p.col]
  {
    forall p | p in sorted
      ensures p.row < |distmat| && p.col < Total(info) && p.score == distmat[p.row][p.col]
    {
      assert p in multiset(sorted);
      AllPairsMembers(distmat, |distmat|, p);
    }
  }

  /**
   * The greedy matching uses each row and each track at most once, and
   * pairs each matched row with the owner of a column it was visited with.
   */
  lemma {:induction false} GreedyOneToOne(s: seq<ScoredPair>, info: seq<Slice>)
    requires forall p :: p in s ==> p.col < Total(info)
    ensures var m := Greedy(s, info);
      |m.rows| == |m.ids|
      && (forall i, j :: 0 <= i < j < |m.rows| ==> m.rows[i] != m.rows[j] && m.ids[i] != m.ids[j])
      && (forall j :: 0 <= j < |m.rows| ==> exists p :: p in s && p.row == m.rows[j] && Owner(info, p.col) == Some(m.ids[j]))
    decreases |s|
  {
    if s != [] {
      var init := s[..|s| - 1];
      GreedyOneToOne(init, info);
      var m := Greedy(s, info);
      var prev := Greedy(init, info);
      forall j | 0 <= j < |m.rows|
        ensures exists p :: p in s && p.row == m.rows[j] && Owner(info, p.col) == Some(m.ids[j])
      {
        if j < |prev.rows| {
          var p :| p in init && p.row == prev.rows[j] && Owner(info, p.col) == Some(prev.ids[j]);
          assert p in s;
          assert m.rows[j] == prev.rows[j] && m.ids[j] == prev.ids[j];
        } else {
          var p := s[|s| - 1];
          OwnerDefined(info, p.col);
          assert p in s && m.rows[j] == p.row && Owner(info, p.col) == Some(m.ids[j]);
        }
      }
    }
  }

  /** No visited tuple is left with both its row and its owner free: the matching is maximal. */
  lemma {:induction false} GreedyMaximal(s: seq<ScoredPair>, info: seq<Slice>)
    requires forall p :: p in s ==> p.col < Total(info)
    ensures var m := Greedy(s, info);
      forall p :: p in s ==> p.row in m.rows || (Owner(info, p.col).Some? && Owner(info, p.col).value in m.ids)
    decreases |s|
  {
    if s != [] {
      var init := s[..|s| - 1];
      GreedyMaximal(init, info);
      forall p | p in s
        ensures p.row in Greedy(s, info).rows || (Owner(info, p.col).Some? && Owner(info, p.col).value in Greedy(s, info).ids)
      {
        OwnerDefined(info, p.col);
        if p != s[|s| - 1] {
          assert p in init by { assert s == init + [s[|s| - 1]]; }
        }
      }
    }
  }

  /** `visited` holds tuples of the matrix at most `THRESHOLD` away, and every such tuple. */
  predicate VisitsExactly(distmat: seq<seq<real>>, info: seq<Slice>, visited: seq<ScoredPair>)
    requires Rectangular(distmat, Total(info))
  {
    (forall p :: p in visited ==> p.row < |distmat| && p.col < Total(info) && p.score == distmat[p.row][p.col] && p.score <= Threshold)
    && (forall i, c :: 0 <= i < |distmat| && 0 <= c < Total(info) && distmat[i][c] <= Threshold ==>
          ScoredPair(distmat[i][c], i, c) in visited)
  }

  /**
   * A matching of the rows of `distmat` to track ids that uses each row
   * and each track once, pairs a row only with the owner of a column at
   * most `THRESHOLD` away, and leaves no such row and owner both free.
   */
  predicate GoodMatching(distmat: seq<seq<real>>, info: seq<Slice>, m: Matching)
    requires Rectangular(distmat, Total(info))
  {
    |m.rows| == |m.ids|
    && (forall i, j :: 0 <= i < j < |m.rows| ==> m.rows[i] != m.rows[j] && m.ids[i] != m.ids[j])
    && (forall j :: 0 <= j < |m.rows| ==>
          (exists c :: 0 <= c < Total(info) && m.rows[j] < |distmat| && distmat[m.rows[j]][c] <= Threshold && Owner(info, c) == Some(m.ids[j])))
    && (forall i, c :: 0 <= i < |distmat| && 0 <= c < Total(info) && distmat[i][c] <= Threshold ==>
          i in m.rows || (Owner(info, c).Some? && Owner(info, c).value in m.ids))
  }

  /** The tuples the scan visits are the sorted tuples of the matrix at most `THRESHOLD` away. */
  lemma VisitedTuples(distmat: seq<seq<real>>, info: seq<Slice>)
    requires Rectangular(distmat, Total(info))
    ensures var sorted := Sort(AllPairs(distmat, |distmat|));
      VisitsExactly(distmat, info, sorted[..Cut(sorted, 0)])
  {
    var sorted := Sort(AllPairs(distmat, |distmat|));
    SortedCols(distmat, info, sorted);
    VisitedBelow(distmat, info, sorted);
    VisitedAll(distmat, info, sorted);
  }

  lemma VisitedBelow(distmat: seq<seq<real>>, info: seq<Slice>, sorted: seq<ScoredPair>)
    requires Rectangular(distmat, Total(info)) && sorted == Sort(AllPairs(distmat, |distmat|))
    ensures forall p :: p in sorted[..Cut(sorted, 0)] ==> p.score <= Threshold
  {
    var visited := sorted[..Cut(sorted, 0)];
    CutAtThreshold(sorted, 0);
    forall p | p in visited
      ensures p.score <= Threshold
    {
      var k :| 0 <= k < |visited| && visited[k] == p;
      assert sorted[k] == p;
    }
  }

  lemma VisitedAll(distmat: seq<seq<real>>, info: seq<Slice>, sorted: seq<ScoredPair>)
    requires Rectangular(distmat, Total(info)) && sorted == Sort(AllPairs(distmat, |distmat|))
    ensures forall i, c :: 0 <= i < |distmat| && 0 <= c < Total(info) && distmat[i][c] <= Threshold ==>
      ScoredPair(distmat[i][c], i, c) in sorted[..Cut(sorted, 0)]
  {
    var pairs := AllPairs(distmat, |distmat|);
    var visited := sorted[..Cut(sorted, 0)];
    CutAtThreshold(sorted, 0);
    forall i, c | 0 <= i < |distmat| && 0 <= c < Total(info) && distmat[i][c] <= Threshold
      ensures ScoredPair(distmat[i][c], i, c) in visited
    {
      var p := ScoredPair(distmat[i][c], i, c);
      AllPairsMembers(distmat, |distmat|, p);
      assert p in multiset(pairs);
      assert p in multiset(sorted);
      var k :| 0 <= k < |sorted| && sorted[k] == p;
      assert visited[k] == p;
    }
  }

  /** The greedy pass over exactly the tuples at most `THRESHOLD` away is a good matching. */
  lemma GreedyOnVisited(distmat: seq<seq<real>>, info: seq<Slice>, visited: seq<ScoredPair>)
    requires Rectangular(distmat, Total(info)) && VisitsExactly(distmat, info, visited)
    ensures GoodMatching(distmat, info, Greedy(visited, info))
  {
    GreedyOneToOne(visited, info);
    GreedyMaximal(visited, info);
    var m := Greedy(visited, info);
    forall j | 0 <= j < |m.rows|
      ensures exists c :: 0 <= c < Total(info) && m.rows[j] < |distmat| && distmat[m.rows[j]][c] <= Threshold && Owner(info, c) == Some(m.ids[j])
    {
      var p :| p in visited && p.row == m.rows[j] && Owner(info, p.col) == Some(m.ids[j]);
      assert distmat[p.row][p.col] <= Threshold;
    }
    forall i, c | 0 <= i < |distmat| && 0 <= c < Total(info) && distmat[i][c] <= Threshold
      ensures i in m.rows || (Owner(info, c).Some? && Owner(info, c).value in m.ids)
    {
      assert ScoredPair(distmat[i][c], i, c) in visited;
    }
  }

  /**
   * `match_id` visits every tuple at most `THRESHOLD` away in ascending
   * `(distance, row, column)` order and matches greedily: the result is a
   * good matching.
   */
  lemma MatchOfMeaning(distmat: seq<seq<real>>, info: seq<Slice>)
    requires Rectangular(distmat, Total(info))
    ensures GoodMatching(distmat, info, MatchOf(distmat, info))
  {
    var sorted := Sort(AllPairs(distmat, |distmat|));
    SortedCols(distmat, info, sorted);
    VisitedTuples(distmat, info);
    GreedyOnVisited(distmat, info, sorted[..Cut(sorted, 0)]);
  }

  /** `match_id`: all tuples, sorted, scanned until the first above the threshold. */
  method MatchId(distmat: seq<seq<real>>, info: seq<Slice>) returns (matchedRow: seq<nat>, matchedId: seq<nat>)
    requires Rectangular(distmat, Total(info))
    ensures Matching(matchedRow, matchedId) == MatchOf(distmat, info)
  {
    var pairs := ScorePairs(distmat);
    var sorted := Sort(pairs);
    SortedCols(distmat, info, sorted);
    matchedRow, matchedId := GreedyScan(sorted, info);
  }

  /** The `(score, row, col)` tuples of the matrix, row by row. */
  method ScorePairs(distmat: seq<seq<real>>) returns (pairs: seq<ScoredPair>)
    ensures pairs == AllPairs(distmat, |distmat|)
  {
    pairs := [];
    for i := 0 to |distmat|
      invariant pairs == AllPairs(distmat, i)
    {
      for j := 0 to |distmat[i]|
        invariant pairs == AllPairs(distmat, i) + RowPairs(distmat[i], i, j)
      {
        pairs := pairs + [ScoredPair(distmat[i][j], i, j)];
      }
    }
  }

  /** The scan over the sorted tuples, stopping at the first one above `THRESHOLD`. */
  method GreedyScan(sorted: seq<ScoredPair>, info: seq<Slice>) returns (matchedRow: seq<nat>, matchedId: seq<nat>)
    requires forall p :: p in sorted ==> p.col < Total(info)
    ensures Matching(matchedRow, matchedId) == Greedy(sorted[..Cut(sorted, 0)], info)
  {
    matchedRow, matchedId := [], [];
    var k := 0;
    while k < |sorted|
      invariant k <= Cut(sorted, 0) && Cut(sorted, k) == Cut(sorted, 0)
      invariant Matching(matchedRow, matchedId) == Greedy(sorted[..k], info)
    {
      var p := sorted[k];
      if p.score > Threshold {
        break;
      }
      assert sorted[..k + 1][..k] == sorted[..k];
      var tid := IndexToId(info, p.col);
      OwnerDefined(info, p.col);
      if p.row !in matchedRow && tid.value !in matchedId {
        matchedRow := matchedRow + [p.row];
        matchedId := matchedId + [tid.value];
      }
      k := k + 1;
    }
  }

  // ---------------------------------------------------------------- matched tracks

  /**
   * A track matched once more, to a detection with feature `f` at time
   * `ts`: past `MAX_GALLERY_SIZE` vectors the one at the random index
   * `draw` (reduced into range) is dropped.
   */
  function Bumped(t: Track, f: Feature, ts: real, draw: nat): Track {
    Track(t.matchCount + 1, t.updateCount, t.firstTime, ts, Grown(t.vectors, f, draw))
  }

  /** A gallery with feature `f` appended and, past `MAX_GALLERY_SIZE`, the vector at `draw` (reduced into range) removed. */
  function Grown(vectors: seq<Feature>, f: Feature, draw: nat): seq<Feature> {
    var vs := vectors + [f];
    if |vs| > MaxGallerySize then vs[..draw % |vs|] + vs[draw % |vs| + 1..] else vs
  }

  /** A matched track's gallery grows by one vector up to `MAX_GALLERY_SIZE` and never beyond it. */
  lemma BumpedKeepsGallery(t: Track, f: Feature, ts: real, draw: nat)
    requires |t.vectors| <= MaxGallerySize
    ensures |Bumped(t, f, ts, draw).vectors| == if |t.vectors| < MaxGallerySize then |t.vectors| + 1 else MaxGallerySize
  {
  }

  /** `ret` before the matched pairs: `-1` for each of `n` detections. */
  function NoIds(n: nat): (r: seq<int>)
    ensures |r| == n && forall j :: 0 <= j < n ==> r[j] == -1
  {
    seq(n, _ => -1)
  }

  /** The tracks and `ret` after the first `k` matched pairs have been applied. */
  datatype Applied = Applied(tracking: map<nat, Track>, ret: seq<int>)

  /** The gallery size `random.randint` draws from for the `j`-th matched pair, and the draw. */
  function Draw(pick: (nat, nat) -> nat, j: nat, t: Track): nat {
    pick(j, |t.vectors| + 1)
  }

  predicate MatchesKnown(tracking: map<nat, Track>, m: Matching, n: nat) {
    |m.rows| == |m.ids| && forall j :: 0 <= j < |m.rows| ==> m.ids[j] in tracking && m.rows[j] < n
  }

  /**
   * The loop over `zip(matched_det, matched_id)` after `k` pairs: the
   * matched track counts the match, is seen at `ts` and takes the
   * detection's feature; the detection gets the track's id once the track
   * has `MIN_MATCH_COUNT` matches.
   */
  function ApplyUpTo(tracking: map<nat, Track>, ret0: seq<int>, m: Matching, feats: seq<Feature>, ts: real,
                     pick: (nat, nat) -> nat, k: nat): (a: Applied)
    requires k <= |m.rows| && MatchesKnown(tracking, m, |feats|) && |feats| == |ret0|
    ensures a.tracking.Keys == tracking.Keys && |a.ret| == |ret0|
  {
    if k == 0 then Applied(tracking, ret0)
    else ApplyPairTo(ApplyUpTo(tracking, ret0, m, feats, ts, pick, k - 1), m.rows[k - 1], m.ids[k - 1], feats, ts, pick, k - 1)
  }

  /** One iteration of the loop over `zip(matched_det, matched_id)`: the `j`-th pair, detection `det` and track `tid`. */
  function ApplyPairTo(a: Applied, det: nat, tid: nat, feats: seq<Feature>, ts: real, pick: (nat, nat) -> nat, j: nat): (a': Applied)
    requires tid in a.tracking && det < |a.ret| && det < |feats|
    ensures a'.tracking.Keys == a.tracking.Keys && |a'.ret| == |a.ret|
  {
    var t := Bumped(a.tracking[tid], feats[det], ts, Draw(pick, j, a.tracking[tid]));
    Applied(a.tracking[tid := t], if t.matchCount >= MinMatchCount then a.ret[det := tid] else a.ret)
  }

  predicate OneToOne(m: Matching) {
    forall i, j :: 0 <= i < j < |m.rows| && j < |m.ids| ==> m.rows[i] != m.rows[j] && m.ids[i] != m.ids[j]
  }

  /** The `j`-th matched track after its match. */
  function BumpOf(tracking: map<nat, Track>, m: Matching, feats: seq<Feature>, ts: real, pick: (nat, nat) -> nat, j: nat): Track
    requires j < |m.rows| && MatchesKnown(tracking, m, |feats|)
  {
    Bumped(tracking[m.ids[j]], feats[m.rows[j]], ts, Draw(pick, j, tracking[m.ids[j]]))
  }

  /**
   * What applying the first `k` pairs of a one-to-one matching does: each
   * matched track is bumped once, every other track is unchanged; a matched
   * detection gets its track's id exactly when the bumped track has
   * `MIN_MATCH_COUNT` matches, and every other detection keeps its `ret`.
   */
  ghost predicate AppliedAs(tracking: map<nat, Track>, ret0: seq<int>, m: Matching, feats: seq<Feature>, ts: real,
                            pick: (nat, nat) -> nat, k: nat, a: Applied)
    requires k <= |m.rows| && MatchesKnown(tracking, m, |feats|) && |feats| == |ret0|
  {
    a.tracking.Keys == tracking.Keys && |a.ret| == |ret0|
    && (forall j :: 0 <= j < k ==>
          a.tracking[m.ids[j]] == BumpOf(tracking, m, feats, ts, pick, j)
          && a.ret[m.rows[j]] == (if tracking[m.ids[j]].matchCount + 1 >= MinMatchCount then m.ids[j] else ret0[m.rows[j]]))
    && (forall tid :: tid in tracking && (forall j :: 0 <= j < k ==> m.ids[j] != tid) ==> a.tracking[tid] == tracking[tid])
    && (forall det :: 0 <= det < |ret0| && (forall j :: 0 <= j < k ==> m.rows[j] != det) ==> a.ret[det] == ret0[det])
  }

  /** A track no pair among the first `k` names is untouched. */
  lemma {:induction false} ApplyLeavesTrack(tracking: map<nat, Track>, ret0: seq<int>, m: Matching, feats: seq<Feature>, ts: real,
                                            pick: (nat, nat) -> nat, k: nat, tid: nat)
    requires k <= |m.rows| && MatchesKnown(tracking, m, |feats|) && |feats| == |ret0|
    requires tid in tracking && forall j :: 0 <= j < k ==> m.ids[j] != tid
    ensures ApplyUpTo(tracking, ret0, m, feats, ts, pick, k).tracking[tid] == tracking[tid]
  {
    if k > 0 {
      ApplyLeavesTrack(tracking, ret0, m, feats, ts, pick, k - 1, tid);
    }
  }

  /** A detection no pair among the first `k` names keeps its `ret`. */
  lemma {:induction false} ApplyLeavesRet(tracking: map<nat, Track>, ret0: seq<int>, m: Matching, feats: seq<Feature>, ts: real,
                                          pick: (nat, nat) -> nat, k: nat, det: nat)
    requires k <= |m.rows| && MatchesKnown(tracking, m, |feats|) && |feats| == |ret0|
    requires det < |ret0| && forall j :: 0 <= j < k ==> m.rows[j] != det
    ensures ApplyUpTo(tracking, ret0, m, feats, ts, pick, k).ret[det] == ret0[det]
  {
    if k > 0 {
      ApplyLeavesRet(tracking, ret0, m, feats, ts, pick, k - 1, det);
    }
  }

  /** The `j`-th pair bumps its track once, and later pairs of a one-to-one matching leave it alone. */
  lemma {:induction false} ApplyPairTrack(tracking: map<nat, Track>, ret0: seq<int>, m: Matching, feats: seq<Feature>, ts: real,
                                          pick: (nat, nat) -> nat, k: nat, j: nat)
    requires k <= |m.rows| && MatchesKnown(tracking, m, |feats|) && |feats| == |ret0| && OneToOne(m) && j < k
    ensures ApplyUpTo(tracking, ret0, m, feats, ts, pick, k).tracking[m.ids[j]] == BumpOf(tracking, m, feats, ts, pick, j)
  {
    var prev := ApplyUpTo(tracking, ret0, m, feats, ts, pick, k - 1);
    var next := ApplyUpTo(tracking, ret0, m, feats, ts, pick, k);
    assert next == ApplyPairTo(prev, m.rows[k - 1], m.ids[k - 1], feats, ts, pick, k - 1);
    if j == k - 1 {
      assert forall i :: 0 <= i < j ==> m.ids[i] != m.ids[j];
      ApplyLeavesTrack(tracking, ret0, m, feats, ts, pick, j, m.ids[j]);
      assert prev.tracking[m.ids[j]] == tracking[m.ids[j]];
    } else {
      ApplyPairTrack(tracking, ret0, m, feats, ts, pick, k - 1, j);
      assert m.ids[k - 1] != m.ids[j];
      assert next.tracking[m.ids[j]] == prev.tracking[m.ids[j]];
    }
  }

  /** The `j`-th pair sets its detection's `ret` once, and later pairs of a one-to-one matching leave it alone. */
  lemma {:induction false} ApplyPairRet(tracking: map<nat, Track>, ret0: seq<int>, m: Matching, feats: seq<Feature>, ts: real,
                                        pick: (nat, nat) -> nat, k: nat, j: nat)
    requires k <= |m.rows| && MatchesKnown(tracking, m, |feats|) && |feats| == |ret0| && OneToOne(m) && j < k
    ensures ApplyUpTo(tracking, ret0, m, feats, ts, pick, k).ret[m.rows[j]]
            == if tracking[m.ids[j]].matchCount + 1 >= MinMatchCount then m.ids[j] else ret0[m.rows[j]]
  {
    if j == k - 1 {
      ApplyLastRet(tracking, ret0, m, feats, ts, pick, j);
      assert ApplyUpTo(tracking, ret0, m, feats, ts, pick, k).ret[m.rows[j]]
            == if tracking[m.ids[j]].matchCount + 1 >= MinMatchCount then m.ids[j] else ret0[m.rows[j]];
    } else {
      ApplyPairRet(tracking, ret0, m, feats, ts, pick, k - 1, j);
      assert m.rows[k - 1] != m.rows[j];
      var prev := ApplyUpTo(tracking, ret0, m, feats, ts, pick, k - 1);
      var next := ApplyUpTo(tracking, ret0, m, feats, ts, pick, k);
      assert next == ApplyPairTo(prev, m.rows[k - 1], m.ids[k - 1], feats, ts, pick, k - 1);
      PairRet(prev, m.rows[k - 1], m.ids[k - 1], feats, ts, pick, k - 1, m.rows[j]);
      assert next.ret[m.rows[j]] == prev.ret[m.rows[j]];
      assert ApplyUpTo(tracking, ret0, m, feats, ts, pick, k).ret[m.rows[j]]
            == if tracking[m.ids[j]].matchCount + 1 >= MinMatchCount then m.ids[j] else ret0[m.rows[j]];
    }
  }

  /** The `j`-th pair, applied after the pairs before it, sets its detection's `ret` when its track reaches `MIN_MATCH_COUNT`. */
  lemma ApplyLastRet(tracking: map<nat, Track>, ret0: seq<int>, m: Matching, feats: seq<Feature>, ts: real,
                     pick: (nat, nat) -> nat, j: nat)
    requires j < |m.rows| && MatchesKnown(tracking, m, |feats|) && |feats| == |ret0| && OneToOne(m)
    ensures ApplyUpTo(tracking, ret0, m, feats, ts, pick, j + 1).ret[m.rows[j]]
            == if tracking[m.ids[j]].matchCount + 1 >= MinMatchCount then m.ids[j] else ret0[m.rows[j]]
  {
    assert forall i :: 0 <= i < j ==> m.ids[i] != m.ids[j] && m.rows[i] != m.rows[j];
    ApplyLeavesTrack(tracking, ret0, m, feats, ts, pick, j, m.ids[j]);
    ApplyLeavesRet(tracking, ret0, m, feats, ts, pick, j, m.rows[j]);
    PairRet(ApplyUpTo(tracking, ret0, m, feats, ts, pick, j), m.rows[j], m.ids[j], feats, ts, pick, j, m.rows[j]);
  }

  /** One pair sets its own detection's `ret` when its track reaches `MIN_MATCH_COUNT`, and no other detection's. */
  lemma PairRet(a: Applied, det: nat, tid: nat, feats: seq<Feature>, ts: real, pick: (nat, nat) -> nat, j: nat, d: nat)
    requires tid in a.tracking && det < |a.ret| && det < |feats| && d < |a.ret|
    ensures ApplyPairTo(a, det, tid, feats, ts, pick, j).ret[d]
            == if d == det && a.tracking[tid].matchCount + 1 >= MinMatchCount then tid else a.ret[d]
  {
  }

  lemma ApplyMeaning(tracking: map<nat, Track>, ret0: seq<int>, m: Matching, feats: seq<Feature>, ts: real,
                     pick: (nat, nat) -> nat, k: nat)
    requires k <= |m.rows| && MatchesKnown(tracking, m, |feats|) && |feats| == |ret0| && OneToOne(m)
    ensures AppliedAs(tracking, ret0, m, feats, ts, pick, k, ApplyUpTo(tracking, ret0, m, feats, ts, pick, k))
  {
    forall j | 0 <= j < k
      ensures ApplyUpTo(tracking, ret0, m, feats, ts, pick, k).tracking[m.ids[j]] == BumpOf(tracking, m, feats, ts, pick, j)
      ensures ApplyUpTo(tracking, ret0, m, feats, ts, pick, k).ret[m.rows[j]]
              == if tracking[m.ids[j]].matchCount + 1 >= MinMatchCount then m.ids[j] else ret0[m.rows[j]]
    {
      ApplyPairTrack(tracking, ret0, m, feats, ts, pick, k, j);
      ApplyPairRet(tracking, ret0, m, feats, ts, pick, k, j);
    }
    forall tid | tid in tracking && (forall j :: 0 <= j < k ==> m.ids[j] != tid)
      ensures ApplyUpTo(tracking, ret0, m, feats, ts, pick, k).tracking[tid] == tracking[tid]
    {
      ApplyLeavesTrack(tracking, ret0, m, feats, ts, pick, k, tid);
    }
    forall det | 0 <= det < |ret0| && (forall j :: 0 <= j < k ==> m.rows[j] != det)
      ensures ApplyUpTo(tracking, ret0, m, feats, ts, pick, k).ret[det] == ret0[det]
    {
      ApplyLeavesRet(tracking, ret0, m, feats, ts, pick, k, det);
    }
  }

  /** Appending a matched detection's feature to a gallery, and dropping a random vector once it is past `MAX_GALLERY_SIZE`. */
  method AddFeature(vectors: seq<Feature>, f: Feature, j: nat, pick: (nat, nat) -> nat) returns (vectors': seq<Feature>)
    ensures vectors' == Grown(vectors, f, pick(j, |vectors| + 1))
  {
    vectors' := vectors + [f];
    if |vectors'| > MaxGallerySize {
      var removeIndex := pick(j, |vectors'|) % |vectors'|;
      vectors' := vectors'[..removeIndex] + vectors'[removeIndex + 1..];
    }
  }

  /** The loop over `zip(matched_det, matched_id)`. */
  method ApplyMatches(tracking: map<nat, Track>, m: Matching, feats: seq<Feature>, ts: real, pick: (nat, nat) -> nat)
    returns (tracking': map<nat, Track>, ret: seq<int>)
    requires MatchesKnown(tracking, m, |feats|)
    ensures Applied(tracking', ret) == ApplyUpTo(tracking, NoIds(|feats|), m, feats, ts, pick, |m.rows|)
  {
    var ret0 := NoIds(|feats|);
    tracking', ret := tracking, ret0;
    for k := 0 to |m.rows|
      invariant Applied(tracking', ret) == ApplyUpTo(tracking, ret0, m, feats, ts, pick, k)
    {
      var det, tid := m.rows[k], m.ids[k];
      tracking', ret := ApplyPairStep(tracking', ret, det, tid, feats, ts, pick, k);
    }
  }

  /** The body of the loop over `zip(matched_det, matched_id)`. */
  method ApplyPairStep(tracking: map<nat, Track>, ret: seq<int>, det: nat, tid: nat, feats: seq<Feature>, ts: real,
                       pick: (nat, nat) -> nat, j: nat)
    returns (tracking': map<nat, Track>, ret': seq<int>)
    requires tid in tracking && det < |ret| && det < |feats|
    ensures Applied(tracking', ret') == ApplyPairTo(Applied(tracking, ret), det, tid, feats, ts, pick, j)
  {
    var t := tracking[tid];
    var vectors := AddFeature(t.vectors, feats[det], j, pick);
    t := Track(t.matchCount + 1, t.updateCount, t.firstTime, ts, vectors);
    tracking', ret' := tracking[tid := t], ret;
    if t.matchCount >= MinMatchCount {
      ret' := ret[det := tid];
    }
  }

  // ---------------------------------------------------------------- new tracks

  /** A track created for an unmatched detection: one match, no update yet, first and last seen now. */
  function NewTrack(f: Feature, ts: real): Track {
    Track(1, 0, ts, ts, [f])
  }

  /** The detections below `n` missing from `matched_det`, in ascending order. */
  function Unmatched(rows: seq<nat>, n: nat): seq<nat> {
    if n == 0 then [] else Unmatched(rows, n - 1) + (if n - 1 in rows then [] else [n - 1])
  }

  /** The unmatched detections are exactly those missing from `matched_det`, each once, in ascending order. */
  lemma {:induction false} UnmatchedLists(rows: seq<nat>, n: nat)
    ensures forall d: nat :: d in Unmatched(rows, n) <==> d < n && d !in rows
    ensures forall i, j :: 0 <= i < j < |Unmatched(rows, n)| ==> Unmatched(rows, n)[i] < Unmatched(rows, n)[j]
  {
    if n > 0 {
      UnmatchedLists(rows, n - 1);
      var u, u' := Unmatched(rows, n - 1), Unmatched(rows, n);
      assert forall d :: d in u' <==> d in u || (d == n - 1 && n - 1 !in rows);
      forall i, j | 0 <= i < j < |u'| ensures u'[i] < u'[j] {
        if j == |u| {
          assert u[i] in u;
        }
      }
    }
  }

  datatype Spawned = Spawned(tracking: map<nat, Track>, nextId: nat)

  /** The loop over `range(len(detections))` after the first `d` detections. */
  function SpawnUpTo(tracking: map<nat, Track>, nextId: nat, rows: seq<nat>, feats: seq<Feature>, ts: real, d: nat): Spawned
    requires d <= |feats|
  {
    if d == 0 then Spawned(tracking, nextId)
    else
      var s := SpawnUpTo(tracking, nextId, rows, feats, ts, d - 1);
      if d - 1 in rows then s else Spawned(s.tracking[s.nextId := NewTrack(feats[d - 1], ts)], s.nextId + 1)
  }

  /**
   * The unmatched detections take consecutive ids from `next_id` in
   * ascending detection order, each a new track; old tracks are untouched.
   */
  ghost predicate SpawnedAs(tracking: map<nat, Track>, nextId: nat, u: seq<nat>, feats: seq<Feature>, ts: real, s: Spawned)
    requires forall j :: 0 <= j < |u| ==> u[j] < |feats|
  {
    s.nextId == nextId + |u|
    && (forall k :: k in s.tracking <==> k in tracking || nextId <= k < nextId + |u|)
    && (forall k :: k in tracking ==> s.tracking[k] == tracking[k])
    && (forall j :: 0 <= j < |u| ==> s.tracking[nextId + j] == NewTrack(feats[u[j]], ts))
  }

  lemma {:induction false} SpawnNext(tracking: map<nat, Track>, nextId: nat, rows: seq<nat>, feats: seq<Feature>, ts: real, d: nat)
    requires d <= |feats|
    ensures SpawnUpTo(tracking, nextId, rows, feats, ts, d).nextId == nextId + |Unmatched(rows, d)|
  {
    if d > 0 {
      SpawnNext(tracking, nextId, rows, feats, ts, d - 1);
    }
  }

  lemma {:induction false} SpawnKeys(tracking: map<nat, Track>, nextId: nat, rows: seq<nat>, feats: seq<Feature>, ts: real, d: nat, k: nat)
    requires d <= |feats|
    ensures k in SpawnUpTo(tracking, nextId, rows, feats, ts, d).tracking <==> k in tracking || nextId <= k < nextId + |Unmatched(rows, d)|
  {
    if d > 0 {
      SpawnKeys(tracking, nextId, rows, feats, ts, d - 1, k);
      SpawnNext(tracking, nextId, rows, feats, ts, d - 1);
    }
  }

  lemma {:induction false} SpawnKeeps(tracking: map<nat, Track>, nextId: nat, rows: seq<nat>, feats: seq<Feature>, ts: real, d: nat, k: nat)
    requires d <= |feats| && k in tracking && forall x :: x in tracking ==> x < nextId
    ensures k in SpawnUpTo(tracking, nextId, rows, feats, ts, d).tracking
            && SpawnUpTo(tracking, nextId, rows, feats, ts, d).tracking[k] == tracking[k]
  {
    if d > 0 {
      SpawnKeeps(tracking, nextId, rows, feats, ts, d - 1, k);
      SpawnKeys(tracking, nextId, rows, feats, ts, d - 1, k);
      SpawnNext(tracking, nextId, rows, feats, ts, d - 1);
    }
  }

  lemma {:induction false} SpawnNew(tracking: map<nat, Track>, nextId: nat, rows: seq<nat>, feats: seq<Feature>, ts: real, d: nat, j: nat)
    requires d <= |feats| && j < |Unmatched(rows, d)|
    ensures Unmatched(rows, d)[j] < d
    ensures nextId + j in SpawnUpTo(tracking, nextId, rows, feats, ts, d).tracking
            && SpawnUpTo(tracking, nextId, rows, feats, ts, d).tracking[nextId + j] == NewTrack(feats[Unmatched(rows, d)[j]], ts)
  {
    UnmatchedLists(rows, d);
    assert Unmatched(rows, d)[j] in Unmatched(rows, d);
    var u := Unmatched(rows, d - 1);
    SpawnNext(tracking, nextId, rows, feats, ts, d - 1);
    if j < |u| {
      SpawnNew(tracking, nextId, rows, feats, ts, d - 1, j);
    }
  }

  lemma SpawnMeaning(tracking: map<nat, Track>, nextId: nat, rows: seq<nat>, feats: seq<Feature>, ts: real, d: nat)
    requires d <= |feats| && forall k :: k in tracking ==> k < nextId
    ensures forall j :: 0 <= j < |Unmatched(rows, d)| ==> Unmatched(rows, d)[j] < |feats|
    ensures SpawnedAs(tracking, nextId, Unmatched(rows, d), feats, ts, SpawnUpTo(tracking, nextId, rows, feats, ts, d))
  {
    var u, s := Unmatched(rows, d), SpawnUpTo(tracking, nextId, rows, feats, ts, d);
    SpawnNext(tracking, nextId, rows, feats, ts, d);
    forall j | 0 <= j < |u| ensures u[j] < |feats| && s.tracking[nextId + j] == NewTrack(feats[u[j]], ts) {
      SpawnNew(tracking, nextId, rows, feats, ts, d, j);
    }
    forall k: nat ensures k in s.tracking <==> k in tracking || nextId <= k < nextId + |u| {
      SpawnKeys(tracking, nextId, rows, feats, ts, d, k);
    }
    forall k | k in tracking ensures s.tracking[k] == tracking[k] {
      SpawnKeeps(tracking, nextId, rows, feats, ts, d, k);
    }
  }

  /** The loop over `range(len(detections))`: every unmatched detection gets a new track under the next id. */
  method SpawnTracks(tracking: map<nat, Track>, nextId: nat, rows: seq<nat>, feats: seq<Feature>, ts: real)
    returns (tracking': map<nat, Track>, nextId': nat)
    ensures Spawned(tracking', nextId') == SpawnUpTo(tracking, nextId, rows, feats, ts, |feats|)
  {
    tracking', nextId' := tracking, nextId;
    for det := 0 to |feats|
      invariant Spawned(tracking', nextId') == SpawnUpTo(tracking, nextId, rows, feats, ts, det)
    {
      if det !in rows {
        var tid := nextId';
        nextId' := nextId' + 1;
        tracking' := tracking'[tid := NewTrack(feats[det], ts)];
      }
    }
  }

  // ---------------------------------------------------------------- expiry

  /** The tracks left after the expiry loop, the ids it counted as customers and their live times, in loop order. */
  datatype Expiry = Expiry(tracking: map<nat, Track>, counted: seq<nat>, lives: seq<real>)

  /** A track last seen more than `MAX_AGE` seconds before `ts`. */
  predicate Expired(t: Track, ts: real) {
    ts - t.lastTime > MaxAge
  }

  function LiveTime(t: Track): real {
    t.lastTime - t.firstTime
  }

  /** A dead track counts as a customer when it lived longer than three minutes and was matched in more than a tenth of its updates. */
  predicate Qualifies(t: Track)
    requires t.updateCount > 0
  {
    LiveTime(t) > MinLiveTime && t.matchCount as real / t.updateCount as real > MinMatchRatio
  }

  /** A track after one more `update_count`. */
  function Ticked(t: Track): Track {
    t.(updateCount := t.updateCount + 1)
  }

  predicate Counting(tracking: map<nat, Track>) {
    forall k :: k in tracking ==> tracking[k].updateCount >= 0
  }

  /** One iteration of the expiry loop, on key `k`: the track is updated once more and, when dead, counted if it qualifies and deleted. */
  function ExpireKey(e: Expiry, k: nat, ts: real): (r: Expiry)
    requires Counting(e.tracking)
    ensures Counting(r.tracking)
  {
    if k !in e.tracking then e
    else
      var t := Ticked(e.tracking[k]);
      if !Expired(t, ts) then Expiry(e.tracking[k := t], e.counted, e.lives)
      else if Qualifies(t) then Expiry(e.tracking - {k}, e.counted + [k], e.lives + [LiveTime(t)])
      else Expiry(e.tracking - {k}, e.counted, e.lives)
  }

  /** The expiry loop over the ids below `n`, in ascending order. */
  function ExpireUpTo(tracking: map<nat, Track>, ts: real, n: nat): (e: Expiry)
    requires Counting(tracking)
    ensures Counting(e.tracking)
  {
    if n == 0 then Expiry(tracking, [], []) else ExpireKey(ExpireUpTo(tracking, ts, n - 1), n - 1, ts)
  }

  /** After the ids below `n`: each live one has been updated once more, and exactly the dead ones are gone. */
  lemma {:induction false} ExpireTrack(tracking: map<nat, Track>, ts: real, n: nat, k: nat)
    requires Counting(tracking)
    ensures k in ExpireUpTo(tracking, ts, n).tracking <==> k in tracking && (k >= n || !Expired(tracking[k], ts))
    ensures k in ExpireUpTo(tracking, ts, n).tracking ==>
      ExpireUpTo(tracking, ts, n).tracking[k] == if k < n then Ticked(tracking[k]) else tracking[k]
  {
    if n > 0 {
      ExpireTrack(tracking, ts, n - 1, k);
      ExpireTrack(tracking, ts, n - 1, n - 1);
    }
  }

  /**
   * The corrected expiry: the ids counted are, in ascending order, exactly
   * the dead tracks that qualify on their own counts, and each is logged
   * with its own live time.
   */
  ghost predicate CountedAs(tracking: map<nat, Track>, ts: real, n: nat, e: Expiry)
    requires Counting(tracking)
  {
    (forall k: nat :: k in e.counted <==> k < n && k in tracking && Expired(tracking[k], ts) && Qualifies(Ticked(tracking[k])))
    && (forall i, j :: 0 <= i < j < |e.counted| ==> e.counted[i] < e.counted[j])
    && |e.lives| == |e.counted|
    && (forall j :: 0 <= j < |e.counted| ==> e.counted[j] in tracking && e.lives[j] == LiveTime(tracking[e.counted[j]]))
  }

  lemma {:induction false} ExpireCountedMember(tracking: map<nat, Track>, ts: real, n: nat, k: nat)
    requires Counting(tracking)
    ensures k in ExpireUpTo(tracking, ts, n).counted <==> k < n && k in tracking && Expired(tracking[k], ts) && Qualifies(Ticked(tracking[k]))
  {
    if n > 0 {
      ExpireCountedMember(tracking, ts, n - 1, k);
      ExpireTrack(tracking, ts, n - 1, n - 1);
    }
  }

  lemma {:induction false} ExpireCountedOrder(tracking: map<nat, Track>, ts: real, n: nat)
    requires Counting(tracking)
    ensures forall i, j :: 0 <= i < j < |ExpireUpTo(tracking, ts, n).counted| ==> ExpireUpTo(tracking, ts, n).counted[i] < ExpireUpTo(tracking, ts, n).counted[j]
    ensures |ExpireUpTo(tracking, ts, n).lives| == |ExpireUpTo(tracking, ts, n).counted|
    ensures forall j :: 0 <= j < |ExpireUpTo(tracking, ts, n).counted| ==>
      ExpireUpTo(tracking, ts, n).counted[j] in tracking
      && ExpireUpTo(tracking, ts, n).lives[j] == LiveTime(tracking[ExpireUpTo(tracking, ts, n).counted[j]])
  {
    if n > 0 {
      ExpireCountedOrder(tracking, ts, n - 1);
      ExpireTrack(tracking, ts, n - 1, n - 1);
      var e := ExpireUpTo(tracking, ts, n - 1);
      var e' := ExpireUpTo(tracking, ts, n);
      forall i, j | 0 <= i < j < |e'.counted| ensures e'.counted[i] < e'.counted[j] {
        if j == |e.counted| {
          ExpireCountedMember(tracking, ts, n - 1, e.counted[i]);
        }
      }
    }
  }

  lemma ExpireCounted(tracking: map<nat, Track>, ts: real, n: nat)
    requires Counting(tracking)
    ensures CountedAs(tracking, ts, n, ExpireUpTo(tracking, ts, n))
  {
    ExpireCountedOrder(tracking, ts, n);
    forall k: nat ensures k in ExpireUpTo(tracking, ts, n).counted <==> k < n && k in tracking && Expired(tracking[k], ts) && Qualifies(Ticked(tracking[k])) {
      ExpireCountedMember(tracking, ts, n, k);
    }
  }

  /** No track the corrected expiry counts lived three minutes or less. */
  lemma CountedLivedLong(tracking: map<nat, Track>, ts: real, n: nat)
    requires Counting(tracking)
    ensures forall j :: 0 <= j < |ExpireUpTo(tracking, ts, n).lives| ==> ExpireUpTo(tracking, ts, n).lives[j] > MinLiveTime
  {
    ExpireCounted(tracking, ts, n);
    var e := ExpireUpTo(tracking, ts, n);
    forall j | 0 <= j < |e.lives| ensures e.lives[j] > MinLiveTime {
      assert e.counted[j] in e.counted;
    }
  }

  /** The body of the expiry loop. */
  method ExpireStep(tracking: map<nat, Track>, counted: seq<nat>, ghost lives: seq<real>, k: nat, ts: real,
                    totalSequence: nat, totalLiveTime: real)
    returns (tracking': map<nat, Track>, counted': seq<nat>, ghost lives': seq<real>, totalSequence': nat, totalLiveTime': real)
    requires Counting(tracking)
    ensures Expiry(tracking', counted', lives') == ExpireKey(Expiry(tracking, counted, lives), k, ts)
    ensures totalSequence' == totalSequence + |lives'| - |lives| && totalLiveTime' == totalLiveTime + MP.Sum(lives') - MP.Sum(lives)
  {
    tracking', counted', lives', totalSequence', totalLiveTime' := tracking, counted, lives, totalSequence, totalLiveTime;
    if k in tracking {
      var t := tracking[k];
      t := t.(updateCount := t.updateCount + 1);
      tracking' := tracking[k := t];
      if ts - t.lastTime > MaxAge {
        if t.lastTime - t.firstTime > MinLiveTime {
          if t.matchCount as real / t.updateCount as real > MinMatchRatio {
            totalLiveTime' := totalLiveTime + (t.lastTime - t.firstTime);
            totalSequence' := totalSequence + 1;
            counted' := counted + [k];
            lives' := lives + [t.lastTime - t.firstTime];
            assert lives'[..|lives|] == lives;
          }
        }
        tracking' := tracking - {k};
      }
    }
  }

  /**
   * The expiry loop of `update_detection_result`, each key's own track
   * deciding whether it is counted; the customer total and the total live
   * time grow by what it counts.
   */
  method Expire(tracking: map<nat, Track>, ts: real, nextId: nat, totalSequence: nat, totalLiveTime: real)
    returns (tracking': map<nat, Track>, counted: seq<nat>, ghost lives: seq<real>, totalSequence': nat, totalLiveTime': real)
    requires Counting(tracking)
    ensures Expiry(tracking', counted, lives) == ExpireUpTo(tracking, ts, nextId)
    ensures totalSequence' == totalSequence + |lives| && totalLiveTime' == totalLiveTime + MP.Sum(lives)
  {
    tracking', counted, lives, totalSequence', totalLiveTime' := tracking, [], [], totalSequence, totalLiveTime;
    for k := 0 to nextId
      invariant Expiry(tracking', counted, lives) == ExpireUpTo(tracking, ts, k)
      invariant totalSequence' == totalSequence + |lives| && totalLiveTime' == totalLiveTime + MP.Sum(lives)
    {
      tracking', counted, lives, totalSequence', totalLiveTime' :=
        ExpireStep(tracking', counted, lives, k, ts, totalSequence', totalLiveTime');
    }
  }

  /**
   * The expiry loop as written: every iteration updates and tests the
   * track the match and spawn loops last touched, `cur` (`None` when there
   * were no detections, where the loop raises `UnboundLocalError` on its
   * first key), while the dead-track test, the live time logged and the
   * deletion use the loop's own key.
   */
  function ExpireAsWrittenUpTo(tracking: map<nat, Track>, cur: Option<nat>, ts: real, n: nat): (r: Option<Expiry>)
    requires Counting(tracking)
    requires cur.Some? ==> cur.value in tracking && tracking[cur.value].lastTime == ts
    ensures r.Some? ==> Counting(r.value.tracking)
    ensures r.Some? && cur.Some? ==> cur.value in r.value.tracking && r.value.tracking[cur.value].lastTime == ts
  {
    if n == 0 then Some(Expiry(tracking, [], []))
    else
      match ExpireAsWrittenUpTo(tracking, cur, ts, n - 1)
      case None => None
      case Some(e) =>
        if n - 1 !in e.tracking then Some(e)
        else if cur.None? then None
        else
          var c := cur.value;
          var tr := e.tracking[c := Ticked(e.tracking[c])];
          if !Expired(tr[n - 1], ts) then Some(Expiry(tr, e.counted, e.lives))
          else if Qualifies(tr[c]) then Some(Expiry(tr - {n - 1}, e.counted + [n - 1], e.lives + [LiveTime(tr[n - 1])]))
          else Some(Expiry(tr - {n - 1}, e.counted, e.lives))
  }

  /**
   * The end of `update_detection_result` as written: the expiry loop,
   * then `return ret, counted_id`. `ret` is bound only when there were
   * detections, which is exactly when some track was touched
   * (`cur.Some?`), so without detections the call raises even when the
   * loop has no track to raise on.
   */
  function ExpireAndReturnAsWritten(tracking: map<nat, Track>, cur: Option<nat>, ts: real, nextId: nat): (r: Option<Expiry>)
    requires Counting(tracking)
    requires cur.Some? ==> cur.value in tracking && tracking[cur.value].lastTime == ts
    ensures cur.None? ==> r.None?
    ensures cur.Some? ==> r == ExpireAsWrittenUpTo(tracking, cur, ts, nextId)
  {
    match ExpireAsWrittenUpTo(tracking, cur, ts, nextId)
    case None => None
    case Some(e) => if cur.None? then None else Some(e)
  }

  /** A customer who lived 250 seconds over 9 updates and left at 250 s, and a track spawned at 600 s. */
  const LeftAndNew: map<nat, Track> := map[0 := Track(50, 9, 0.0, 250.0, [7]), 1 := NewTrack(8, 600.0)]

  /**
   * A long-lived, often matched customer who left more than five minutes
   * ago is not counted as written, because the newly spawned track decides
   * for it; counted on its own track it is.
   */
  lemma CurrentTrackDecides()
    ensures ExpireAsWrittenUpTo(LeftAndNew, Some(1), 600.0, 2).Some?
    ensures ExpireAsWrittenUpTo(LeftAndNew, Some(1), 600.0, 2).value.counted == []
    ensures ExpireUpTo(LeftAndNew, 600.0, 2).counted == [0] && ExpireUpTo(LeftAndNew, 600.0, 2).lives == [250.0]
  {
    LeftAndNewAsWritten();
    LeftAndNewCorrected();
  }

  lemma LeftAndNewAsWritten()
    ensures ExpireAsWrittenUpTo(LeftAndNew, Some(1), 600.0, 2).Some?
    ensures ExpireAsWrittenUpTo(LeftAndNew, Some(1), 600.0, 2).value.counted == []
  {
    var w1 := ExpireAsWrittenUpTo(LeftAndNew, Some(1), 600.0, 1);
    assert !Qualifies(Track(1, 1, 600.0, 600.0, [8]));
    assert w1.Some? && w1.value.counted == [];
  }

  lemma LeftAndNewCorrected()
    ensures ExpireUpTo(LeftAndNew, 600.0, 2).counted == [0] && ExpireUpTo(LeftAndNew, 600.0, 2).lives == [250.0]
  {
    var e0 := ExpireUpTo(LeftAndNew, 600.0, 0);
    assert e0 == Expiry(LeftAndNew, [], []);
    assert Qualifies(Track(50, 10, 0.0, 250.0, [7]));
    var e1 := ExpireKey(e0, 0, 600.0);
    assert e1 == Expiry(LeftAndNew - {0}, [0], [250.0]);
    assert 1 in e1.tracking && e1.tracking[1] == NewTrack(8, 600.0);
    assert ExpireUpTo(LeftAndNew, 600.0, 2) == ExpireKey(e1, 1, 600.0);
  }

  /**
   * With no detections the loop as written raises on the first track,
   * leaving every track unaged; the corrected loop ages it. With no tracks
   * either, the loop runs through and the return raises.
   */
  lemma NoDetectionsRaises()
    ensures ExpireAsWrittenUpTo(map[0 := NewTrack(7, 0.0)], None, 10.0, 1) == None
    ensures ExpireAsWrittenUpTo(map[], None, 10.0, 0).Some? && ExpireAndReturnAsWritten(map[], None, 10.0, 0) == None
    ensures ExpireUpTo(map[0 := NewTrack(7, 0.0)], 10.0, 1) == Expiry(map[0 := Track(1, 1, 0.0, 0.0, [7])], [], [])
  {
    assert map[0 := NewTrack(7, 0.0)][0 := Track(1, 1, 0.0, 0.0, [7])] == map[0 := Track(1, 1, 0.0, 0.0, [7])];
  }

  // ---------------------------------------------------------------- one detection result

  /**
   * Every track has an id below `next_id`, a gallery of one to
   * `MAX_GALLERY_SIZE` vectors, at least one match and a non-negative
   * update count.
   */
  predicate WellFormed(tracking: map<nat, Track>, nextId: nat) {
    forall k :: k in tracking ==>
      k < nextId && 1 <= |tracking[k].vectors| <= MaxGallerySize && tracking[k].matchCount >= 1 && tracking[k].updateCount >= 0
  }

  /** The matching applied: `match_id`'s when `get_gallery` has rows, none when it returns `None`. */
  function MatchingFor(info: seq<Slice>, distmat: seq<seq<real>>): Matching
    requires Rectangular(distmat, Total(info))
  {
    if Total(info) == 0 then Matching([], []) else MatchOf(distmat, info)
  }

  /** The matching pairs each of the detections at most once with each known track at most once. */
  lemma MatchingKnown(tracking: map<nat, Track>, nextId: nat, distmat: seq<seq<real>>)
    requires Rectangular(distmat, Total(GalleryInfo(tracking, nextId)))
    ensures MatchesKnown(tracking, MatchingFor(GalleryInfo(tracking, nextId), distmat), |distmat|)
    ensures OneToOne(MatchingFor(GalleryInfo(tracking, nextId), distmat))
  {
    var info := GalleryInfo(tracking, nextId);
    if Total(info) > 0 {
      MatchOfMeaning(distmat, info);
      GalleryInfoLists(tracking, nextId);
      var m := MatchOf(distmat, info);
      forall j | 0 <= j < |m.rows| ensures m.ids[j] in tracking && m.rows[j] < |distmat| {
        var c :| 0 <= c < Total(info) && m.rows[j] < |distmat| && distmat[m.rows[j]][c] <= Threshold && Owner(info, c) == Some(m.ids[j]);
        OwnerDefined(info, c);
      }
    }
  }

  /** The tracks, the next id and `ret` once a detection result has been matched and its new tracks created. */
  datatype Detected = Detected(tracking: map<nat, Track>, nextId: nat, ret: seq<int>)

  /**
   * The matching half of `update_detection_result` for detections with
   * features `feats` at time `ts`, `distmat` being what `re_ranking`
   * computes against the gallery.
   */
  function Detect(tracking: map<nat, Track>, nextId: nat, feats: seq<Feature>, distmat: seq<seq<real>>, ts: real,
                  pick: (nat, nat) -> nat): Detected
    requires Rectangular(distmat, Total(GalleryInfo(tracking, nextId))) && |distmat| == |feats|
  {
    if feats == [] then Detected(tracking, nextId, [])
    else
      var m := MatchingFor(GalleryInfo(tracking, nextId), distmat);
      MatchingKnown(tracking, nextId, distmat);
      var a := ApplyUpTo(tracking, NoIds(|feats|), m, feats, ts, pick, |m.rows|);
      var s := SpawnUpTo(a.tracking, nextId, m.rows, feats, ts, |feats|);
      Detected(s.tracking, s.nextId, a.ret)
  }

  /**
   * What `update_detection_result` returns for the detections, before the
   * dead tracks go: one entry per detection, `-1` or the id of a track
   * with at least `MIN_MATCH_COUNT` matches, no id twice.
   */
  ghost predicate Confirmed(d: Detected, n: nat) {
    |d.ret| == n
    && (forall det :: 0 <= det < |d.ret| ==>
          d.ret[det] == -1 || (d.ret[det] >= 0 && d.ret[det] as nat in d.tracking && d.tracking[d.ret[det] as nat].matchCount >= MinMatchCount))
    && (forall i, j :: 0 <= i < j < |d.ret| && d.ret[i] != -1 ==> d.ret[i] != d.ret[j])
  }

  /** Matching keeps the tracks well formed, and `ret` reports only confirmed tracks, each once. */
  lemma DetectMeaning(tracking: map<nat, Track>, nextId: nat, feats: seq<Feature>, distmat: seq<seq<real>>, ts: real,
                      pick: (nat, nat) -> nat)
    requires WellFormed(tracking, nextId)
    requires Rectangular(distmat, Total(GalleryInfo(tracking, nextId))) && |distmat| == |feats|
    ensures WellFormed(Detect(tracking, nextId, feats, distmat, ts, pick).tracking, Detect(tracking, nextId, feats, distmat, ts, pick).nextId)
    ensures Confirmed(Detect(tracking, nextId, feats, distmat, ts, pick), |feats|)
  {
    if feats != [] {
      var m := MatchingFor(GalleryInfo(tracking, nextId), distmat);
      MatchingKnown(tracking, nextId, distmat);
      var ret0 := NoIds(|feats|);
      var a := ApplyUpTo(tracking, ret0, m, feats, ts, pick, |m.rows|);
      ApplyMeaning(tracking, ret0, m, feats, ts, pick, |m.rows|);
      AppliedWellFormed(tracking, nextId, ret0, m, feats, ts, pick, a);
      AppliedConfirmed(tracking, ret0, m, feats, ts, pick, a);
      SpawnMeaning(a.tracking, nextId, m.rows, feats, ts, |feats|);
      SpawnedWellFormed(a.tracking, nextId, Unmatched(m.rows, |feats|), feats, ts, SpawnUpTo(a.tracking, nextId, m.rows, feats, ts, |feats|));
    }
  }

  lemma SpawnedWellFormed(tracking: map<nat, Track>, nextId: nat, u: seq<nat>, feats: seq<Feature>, ts: real, s: Spawned)
    requires WellFormed(tracking, nextId) && forall j :: 0 <= j < |u| ==> u[j] < |feats|
    requires SpawnedAs(tracking, nextId, u, feats, ts, s)
    ensures WellFormed(s.tracking, s.nextId)
    ensures forall k :: k in tracking ==> k in s.tracking && s.tracking[k] == tracking[k]
  {
    forall k | k in s.tracking
      ensures k < s.nextId && 1 <= |s.tracking[k].vectors| <= MaxGallerySize
      ensures s.tracking[k].matchCount >= 1 && s.tracking[k].updateCount >= 0
    {
      if k !in tracking {
        assert s.tracking[nextId + (k - nextId)] == NewTrack(feats[u[k - nextId]], ts);
      }
    }
  }

  lemma AppliedWellFormed(tracking: map<nat, Track>, nextId: nat, ret0: seq<int>, m: Matching, feats: seq<Feature>, ts: real,
                          pick: (nat, nat) -> nat, a: Applied)
    requires WellFormed(tracking, nextId) && MatchesKnown(tracking, m, |feats|) && |feats| == |ret0|
    requires AppliedAs(tracking, ret0, m, feats, ts, pick, |m.rows|, a)
    ensures WellFormed(a.tracking, nextId)
  {
    forall k | k in a.tracking
      ensures k < nextId && 1 <= |a.tracking[k].vectors| <= MaxGallerySize
      ensures a.tracking[k].matchCount >= 1 && a.tracking[k].updateCount >= 0
    {
      if j :| 0 <= j < |m.rows| && m.ids[j] == k {
        BumpedKeepsGallery(tracking[k], feats[m.rows[j]], ts, Draw(pick, j, tracking[k]));
      }
    }
  }

  lemma AppliedConfirmed(tracking: map<nat, Track>, ret0: seq<int>, m: Matching, feats: seq<Feature>, ts: real,
                         pick: (nat, nat) -> nat, a: Applied)
    requires MatchesKnown(tracking, m, |feats|) && |feats| == |ret0| && OneToOne(m) && ret0 == NoIds(|feats|)
    requires AppliedAs(tracking, ret0, m, feats, ts, pick, |m.rows|, a)
    ensures forall det :: 0 <= det < |a.ret| ==>
      a.ret[det] == -1 || (a.ret[det] >= 0 && a.ret[det] as nat in a.tracking && a.tracking[a.ret[det] as nat].matchCount >= MinMatchCount)
    ensures forall i, j :: 0 <= i < j < |a.ret| && a.ret[i] != -1 ==> a.ret[i] != a.ret[j]
  {
    AppliedRetFrom(tracking, ret0, m, feats, ts, pick, a);
    forall det | 0 <= det < |a.ret| && a.ret[det] != -1
      ensures a.ret[det] >= 0 && a.ret[det] as nat in a.tracking && a.tracking[a.ret[det] as nat].matchCount >= MinMatchCount
    {
      var j :| 0 <= j < |m.rows| && m.rows[j] == det && a.ret[det] == m.ids[j];
      assert a.tracking[m.ids[j]] == BumpOf(tracking, m, feats, ts, pick, j);
    }
    forall d1, d2 | 0 <= d1 < d2 < |a.ret| && a.ret[d1] != -1 ensures a.ret[d1] != a.ret[d2] {
      var j1 :| 0 <= j1 < |m.rows| && m.rows[j1] == d1 && a.ret[d1] == m.ids[j1];
      if a.ret[d2] != -1 {
        var j2 :| 0 <= j2 < |m.rows| && m.rows[j2] == d2 && a.ret[d2] == m.ids[j2];
        assert j1 != j2;
      }
    }
  }

  /** A detection's `ret` is `-1` unless some pair matched it, and then it is that pair's track, confirmed. */
  lemma AppliedRetFrom(tracking: map<nat, Track>, ret0: seq<int>, m: Matching, feats: seq<Feature>, ts: real,
                       pick: (nat, nat) -> nat, a: Applied)
    requires MatchesKnown(tracking, m, |feats|) && |feats| == |ret0| && ret0 == NoIds(|feats|)
    requires AppliedAs(tracking, ret0, m, feats, ts, pick, |m.rows|, a)
    ensures forall det :: 0 <= det < |a.ret| && a.ret[det] != -1 ==>
      exists j :: 0 <= j < |m.rows| && m.rows[j] == det && a.ret[det] == m.ids[j] && tracking[m.ids[j]].matchCount + 1 >= MinMatchCount
  {
    forall det | 0 <= det < |a.ret| && a.ret[det] != -1
      ensures exists j :: 0 <= j < |m.rows| && m.rows[j] == det && a.ret[det] == m.ids[j] && tracking[m.ids[j]].matchCount + 1 >= MinMatchCount
    {
      if j :| 0 <= j < |m.rows| && m.rows[j] == det {
      }
    }
  }

  /** The matching half of `update_detection_result` for a non-empty detection result, with the `gallery_info` it leaves. */
  method DetectResult(tracking: map<nat, Track>, nextId: nat, feats: seq<Feature>, distmat: seq<seq<real>>, ts: real,
                      pick: (nat, nat) -> nat)
    returns (d: Detected, info: seq<Slice>)
    requires feats != [] && Rectangular(distmat, Total(GalleryInfo(tracking, nextId))) && |distmat| == |feats|
    ensures d == Detect(tracking, nextId, feats, distmat, ts, pick) && info == GalleryInfo(tracking, nextId)
  {
    info := GetGalleryInfo(tracking, nextId);
    var m := Matching([], []);
    if Total(info) > 0 {
      var matchedDet, matchedId := MatchId(distmat, info);
      m := Matching(matchedDet, matchedId);
    }
    MatchingKnown(tracking, nextId, distmat);
    var tracking', ret := ApplyMatches(tracking, m, feats, ts, pick);
    var tracking'', nextId' := SpawnTracks(tracking', nextId, m.rows, feats, ts);
    d := Detected(tracking'', nextId', ret);
  }

  /** The expiry keeps the tracks well formed. */
  lemma {:induction false} ExpireWellFormed(tracking: map<nat, Track>, nextId: nat, ts: real, n: nat)
    requires WellFormed(tracking, nextId)
    ensures WellFormed(ExpireUpTo(tracking, ts, n).tracking, nextId)
  {
    if n > 0 {
      ExpireWellFormed(tracking, nextId, ts, n - 1);
    }
  }

  /**
   * The tracker's bookkeeping: well-formed tracks, and the customer count
   * and total live time summing the counted live times `lives`, each of
   * which exceeds three minutes.
   */
  ghost predicate Books(tracking: map<nat, Track>, nextId: nat, totalSequence: nat, totalLiveTime: real, lives: seq<real>) {
    WellFormed(tracking, nextId) && totalSequence == |lives| && totalLiveTime == MP.Sum(lives)
    && forall j :: 0 <= j < |lives| ==> lives[j] > MinLiveTime
  }

  /**
   * One detection result at time `ts` takes the tracks `tracking` below
   * `nextId` and the counted live times `lives` to `tracking'`, `nextId'`
   * and `lives'`, returning `ret` and `counted`: the detections are
   * matched and new tracks created (`Detect`), then every track is
   * updated once more and the dead ones removed, the qualifying ones
   * counted (`ExpireUpTo`).
   */
  ghost predicate Processed(tracking: map<nat, Track>, nextId: nat, lives: seq<real>, feats: seq<Feature>, distmat: seq<seq<real>>,
                            ts: real, pick: (nat, nat) -> nat,
                            tracking': map<nat, Track>, nextId': nat, lives': seq<real>, ret: seq<int>, counted: seq<nat>)
    requires WellFormed(tracking, nextId)
    requires Rectangular(distmat, Total(GalleryInfo(tracking, nextId))) && |distmat| == |feats|
  {
    DetectMeaning(tracking, nextId, feats, distmat, ts, pick);
    var d := Detect(tracking, nextId, feats, distmat, ts, pick);
    var e := ExpireUpTo(d.tracking, ts, d.nextId);
    ret == d.ret && counted == e.counted && tracking' == e.tracking && nextId' == d.nextId && lives' == lives + e.lives
  }

  /** The bookkeeping of `update_detection_result` once the frame's time stamp `ts` is known. */
  method Process(tracking: map<nat, Track>, nextId: nat, totalSequence: nat, totalLiveTime: real, ghost lives: seq<real>,
                 feats: seq<Feature>, distmat: seq<seq<real>>, ts: real, pick: (nat, nat) -> nat)
    returns (tracking': map<nat, Track>, nextId': nat, totalSequence': nat, totalLiveTime': real, ghost lives': seq<real>,
             ret: seq<int>, counted: seq<nat>, info: Option<seq<Slice>>)
    requires Books(tracking, nextId, totalSequence, totalLiveTime, lives)
    requires Rectangular(distmat, Total(GalleryInfo(tracking, nextId))) && |distmat| == |feats|
    ensures Books(tracking', nextId', totalSequence', totalLiveTime', lives')
    ensures Processed(tracking, nextId, lives, feats, distmat, ts, pick, tracking', nextId', lives', ret, counted)
    ensures info == if feats == [] then None else Some(GalleryInfo(tracking, nextId))
  {
    var d := Detected(tracking, nextId, []);
    info := None;
    if |feats| > 0 {
      var gallery;
      d, gallery := DetectResult(tracking, nextId, feats, distmat, ts, pick);
      info := Some(gallery);
    }
    DetectMeaning(tracking, nextId, feats, distmat, ts, pick);
    CountedLivedLong(d.tracking, ts, d.nextId);
    ExpireWellFormed(d.tracking, d.nextId, ts, d.nextId);
    ghost var added: seq<real>;
    tracking', counted, added, totalSequence', totalLiveTime' := Expire(d.tracking, ts, d.nextId, totalSequence, totalLiveTime);
    nextId', ret := d.nextId, d.ret;
    MP.SumConcat(lives, added);
    lives' := lives + added;
  }

  // ---------------------------------------------------------------- the tracker

  /** What `update_detection_result` returns: `None` when the frame is not buffered, otherwise `(ret, counted_id)`. */
  datatype Outcome = NotBuffered | Result(ret: seq<int>, counted: seq<nat>)

  /** `Tracker`, without its re-identification network. */
  class Tracker {
    var frameBuffer: map<int, Buffered>
    var tracking: map<nat, Track>
    var nextId: nat
    /** The number of tracks counted as customers, and their total live time. */
    var totalSequence: nat
    var totalLiveTime: real
    var galleryInfo: seq<Slice>
    /** The live times of the counted tracks, in the order they were counted. */
    ghost var lives: seq<real>

    /** The buffer holds at most `MAX_BUFFER_SIZE` frames, and the bookkeeping is consistent. */
    ghost predicate Valid()
      reads this
    {
      |frameBuffer| <= MaxBufferSize && Books(tracking, nextId, totalSequence, totalLiveTime, lives)
    }

    constructor ()
      ensures Valid()
      ensures frameBuffer == map[] && tracking == map[] && nextId == 0 && totalSequence == 0 && totalLiveTime == 0.0
    {
      frameBuffer, tracking, nextId, totalSequence, totalLiveTime := map[], map[], 0, 0, 0.0;
      galleryInfo, lives := [], [];
    }

    /** `update_frame`: buffers the frame, keeping only the `MAX_BUFFER_SIZE` most recent frame ids. */
    method UpdateFrame(frameId: int, timeStamp: real, frame: Frame)
      requires Valid()
      modifies this
      ensures Valid()
      ensures frameBuffer == Trimmed(old(frameBuffer)[frameId := Buffered(timeStamp, frame)])
      ensures tracking == old(tracking) && nextId == old(nextId) && lives == old(lives)
      ensures totalSequence == old(totalSequence) && totalLiveTime == old(totalLiveTime) && galleryInfo == old(galleryInfo)
    {
      frameBuffer := frameBuffer[frameId := Buffered(timeStamp, frame)];
      ghost var b := frameBuffer;
      if |frameBuffer| > MaxBufferSize {
        var keep := Largest(frameBuffer.Keys, MaxBufferSize);
        frameBuffer := DeleteKeys(frameBuffer, frameBuffer.Keys - keep);
        assert frameBuffer == Trimmed(b);
      }
      TrimmedKeepsLargest(b);
    }

    /**
     * `update_detection_result` with the expiry loop deciding each track on
     * its own counts: older frames leave the buffer; for a buffered frame
     * the detections are matched, new tracks created, every track updated
     * once more and the dead ones removed, the qualifying ones counted.
     * `feats` are the features `get_features` computes for the detections,
     * `distmat` the distances `re_ranking` computes against the gallery,
     * `pick` the choices of `random.randint`.
     */
    method UpdateDetectionResult(frameId: int, feats: seq<Feature>, distmat: seq<seq<real>>, pick: (nat, nat) -> nat)
      returns (outcome: Outcome)
      requires Valid()
      requires Rectangular(distmat, Total(GalleryInfo(tracking, nextId))) && |distmat| == |feats|
      modifies this
      ensures Valid()
      ensures frameBuffer == OlderDropped(old(frameBuffer), frameId)
      ensures outcome.NotBuffered? <==> frameId !in old(frameBuffer)
      ensures outcome.NotBuffered? ==>
        tracking == old(tracking) && nextId == old(nextId) && lives == old(lives) && galleryInfo == old(galleryInfo)
      ensures outcome.Result? ==>
        Processed(old(tracking), old(nextId), old(lives), feats, distmat, old(frameBuffer)[frameId].timeStamp, pick,
                  tracking, nextId, lives, outcome.ret, outcome.counted)
        && galleryInfo == if feats == [] then old(galleryInfo) else GalleryInfo(old(tracking), old(nextId))
    {
      var buffered := DropOlder(frameId);
      if !buffered {
        return NotBuffered;
      }
      var ts := frameBuffer[frameId].timeStamp;
      var ret, counted, info;
      var tracking', nextId', totalSequence', totalLiveTime', lives' := tracking, nextId, totalSequence, totalLiveTime, lives;
      tracking', nextId', totalSequence', totalLiveTime', lives', ret, counted, info :=
        Process(tracking, nextId, totalSequence, totalLiveTime, lives, feats, distmat, ts, pick);
      tracking, nextId, totalSequence, totalLiveTime, lives := tracking', nextId', totalSequence', totalLiveTime', lives';
      if info.Some? {
        galleryInfo := info.value;
      }
      outcome := Result(ret, counted);
    }

    /** The first loop of `update_detection_result`: frames older than `frame_id` leave the buffer; then whether `frame_id` was buffered. */
    method DropOlder(frameId: int) returns (buffered: bool)
      requires Valid()
      modifies this
      ensures Valid()
      ensures frameBuffer == OlderDropped(old(frameBuffer), frameId) && (buffered <==> frameId in old(frameBuffer))
      ensures tracking == old(tracking) && nextId == old(nextId) && lives == old(lives) && galleryInfo == old(galleryInfo)
      ensures totalSequence == old(totalSequence) && totalLiveTime == old(totalLiveTime)
    {
      var keys := frameBuffer.Keys;
      frameBuffer := DeleteKeys(frameBuffer, set k | k in keys && k < frameId);
      assert frameBuffer == OlderDropped(old(frameBuffer), frameId);
      SubsetCount(frameBuffer.Keys, keys);
      buffered := frameId in keys;
    }

    /** `avg_alive_time`: the mean live time of the counted tracks, 0 before the first. */
    function AvgAliveTime(): (r: real)
      reads this
      requires Valid()
      ensures totalSequence == 0 ==> r == 0.0
      ensures totalSequence > 0 ==> r == MP.Mean(lives) && r > MinLiveTime
    {
      if totalSequence == 0 then 0.0
      else
        MP.MeanAbove(lives, MinLiveTime);
        totalLiveTime / totalSequence as real
    }

    /** `total_sequence_count`: the number of tracks counted as customers. */
    function TotalSequenceCount(): (r: nat)
      reads this
      requires Valid()
      ensures r == |lives|
    {
      totalSequence
    }

    /** `alive_ids`: the confirmed tracks, those with at least `MIN_MATCH_COUNT` matches, in ascending id order. */
    method AliveIds() returns (ids: seq<nat>)
      requires Valid()
      ensures forall k :: k in ids <==> k in tracking && tracking[k].matchCount >= MinMatchCount
      ensures forall i, j :: 0 <= i < j < |ids| ==> ids[i] < ids[j]
    {
      ids := [];
      for k := 0 to nextId
        invariant forall x :: x in ids <==> x < k && x in tracking && tracking[x].matchCount >= MinMatchCount
        invariant forall x :: x in ids ==> x < k
        invariant forall i, j :: 0 <= i < j < |ids| ==> ids[i] < ids[j]
      {
        if k in tracking && tracking[k].matchCount >= MinMatchCount {
          assert forall i :: 0 <= i < |ids| ==> ids[i] in ids;
          ids := ids + [k];
        }
      }
    }
  }
}
