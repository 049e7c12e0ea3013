/**
 * The greedy box tracker of tracker_3.py (`SimpleTracker`).
 *
 * `box_dis` divides a centre distance (a square root) by the mean box size.
 * The model never takes the root: it works with the signed square
 * `dis * |dis|` of the distance, which is strictly monotone in `dis`, so
 * the threshold test `dis < DIS_THRESHOLD` and the order `sorted` puts the
 * candidate tuples in are exactly those of the source (DisKeyOfBoxDis,
 * SignedSquareMonotone).
 *
 * The clock is the parameter `now`, and fresh identities are drawn from the
 * counter `nextId` rather than from `time.time()`.
 */
module Tracker3 {
  import opened Wrappers
  import opened UtilsMain
  import opened PairSort

  /** One entry of `tracked_item`: the dict with keys id, box, first_time, last_time. */
  datatype Track = Track(id: nat, box: Box, firstTime: real, lastTime: real)

  // ---------------------------------------------------------------- box_dis

  function Size(x: Box): real { ((x.b - x.t) + (x.r - x.l)) / 2.0 }

  function Centre(x: Box): Point { Point((x.l + x.r) / 2.0, (x.t + x.b) / 2.0) }

  /**
   * The divisor of `box_dis`. The boxes main.py hands to the tracker are
   * numpy integer rows, so when it is zero the quotient is inf or nan, not
   * a ZeroDivisionError, and the pair fails `dis < DIS_THRESHOLD`.
   */
  function AvgSize(a: Box, b: Box): real { (Size(a) + Size(b)) / 2.0 }

  function Abs(x: real): real { if x < 0.0 then -x else x }

  /** `x * |x|`: order-preserving, and equal to `x * x` for non-negative `x`. */
  function SignedSquare(x: real): real { x * Abs(x) }

  /** The signed square of `box_dis(a, b)`, computed without a square root. */
  function DisKey(a: Box, b: Box): real
    requires AvgSize(a, b) != 0.0
  {
    SquaredDistance(Centre(a), Centre(b)) / SignedSquare(AvgSize(a, b))
  }

  lemma PositiveProduct(a: real, b: real)
    requires a > 0.0 && b > 0.0
    ensures a * b > 0.0
  {
  }

  lemma SquareStrict(a: real, b: real)
    requires 0.0 <= a < b
    ensures a * a < b * b
  {
    assert b * b - a * a == (b - a) * (b + a);
    PositiveProduct(b - a, b + a);
  }

  lemma SignedSquareOfNegative(x: real)
    requires x < 0.0
    ensures SignedSquare(x) == -((-x) * (-x)) && SignedSquare(x) < 0.0
  {
    assert (-x) * (-x) > 0.0;
  }

  /** Strict order between the signed squares of two reals, assuming `x < y`. */
  lemma SignedSquareStrict(x: real, y: real)
    requires x < y
    ensures SignedSquare(x) < SignedSquare(y)
  {
    if 0.0 <= x {
      SquareStrict(x, y);
    } else if y <= 0.0 {
      SquareStrict(-y, -x);
      SignedSquareOfNegative(x);
      if y < 0.0 {
        SignedSquareOfNegative(y);
      }
    } else {
      SignedSquareOfNegative(x);
      assert y * y > 0.0;
    }
  }

  lemma SignedSquareMonotone(x: real, y: real)
    ensures x < y <==> SignedSquare(x) < SignedSquare(y)
    ensures x == y <==> SignedSquare(x) == SignedSquare(y)
  {
    if x < y {
      SignedSquareStrict(x, y);
    } else if y < x {
      SignedSquareStrict(y, x);
    }
  }

  lemma AbsProduct(x: real, y: real)
    ensures Abs(x * y) == Abs(x) * Abs(y)
  {
    if x < 0.0 && y >= 0.0 {
      assert x * y <= 0.0;
      assert -(x * y) == (-x) * y;
    } else if x >= 0.0 && y < 0.0 {
      assert x * y <= 0.0;
      assert -(x * y) == x * (-y);
    } else if x < 0.0 && y < 0.0 {
      assert x * y == (-x) * (-y);
    } else {
      assert x * y >= 0.0;
    }
  }

  /**
   * For the square root `root` of the squared centre distance, `box_dis`
   * is `root / avg` and DisKey is its signed square.
   */
  lemma DisKeyOfBoxDis(a: Box, b: Box, root: real)
    requires AvgSize(a, b) != 0.0
    requires root >= 0.0 && root * root == SquaredDistance(Centre(a), Centre(b))
    ensures DisKey(a, b) == SignedSquare(root / AvgSize(a, b))
  {
    var avg := AvgSize(a, b);
    var q := root / avg;
    assert q * avg == root;
    AbsProduct(q, avg);
    assert Abs(q * avg) == root;
    calc {
      SignedSquare(q) * SignedSquare(avg);
      (q * Abs(q)) * (avg * Abs(avg));
      (q * avg) * (Abs(q) * Abs(avg));
      root * root;
    }
    assert SignedSquare(avg) != 0.0 by {
      AbsProduct(avg, avg);
      assert Abs(avg) > 0.0;
      assert avg * Abs(avg) != 0.0;
    }
  }

  /** `box_dis(a, b) == box_dis(b, a)`, and it fails on the same pairs. */
  lemma BoxDisSymmetric(a: Box, b: Box)
    ensures AvgSize(a, b) == AvgSize(b, a)
    ensures AvgSize(a, b) != 0.0 ==> DisKey(a, b) == DisKey(b, a)
  {
    SquaredDistanceSymmetric(Centre(a), Centre(b));
  }

  /** `box_dis` is non-negative when the mean size is positive (well-formed boxes, not both points). */
  lemma BoxDisNonNegative(a: Box, b: Box)
    requires AvgSize(a, b) > 0.0
    ensures DisKey(a, b) >= 0.0
  {
    var avg := AvgSize(a, b);
    assert SignedSquare(avg) == avg * avg;
    assert avg * avg > 0.0;
  }

  /**
   * The candidate test on the signed square agrees with the source's test
   * `box_dis(a, b) < DIS_THRESHOLD`; in particular a pair at exactly the
   * threshold is not a candidate.
   */
  lemma CandidateTestMatchesBoxDis(a: Box, b: Box, root: real, threshold: real)
    requires AvgSize(a, b) != 0.0
    requires root >= 0.0 && root * root == SquaredDistance(Centre(a), Centre(b))
    ensures DisKey(a, b) < SignedSquare(threshold) <==> root / AvgSize(a, b) < threshold
  {
    DisKeyOfBoxDis(a, b, root);
    SignedSquareMonotone(root / AvgSize(a, b), threshold);
  }

  // ---------------------------------------------------------------- candidates

  /**
   * `box_dis(a, b)` as an order key, or None when the mean size is zero:
   * on the numpy rows main.py passes, the division then gives inf or nan,
   * which fails every `<` test.
   */
  function Score(a: Box, b: Box): (r: Option<real>)
    ensures r.Some? <==> AvgSize(a, b) != 0.0
  {
    if AvgSize(a, b) == 0.0 then None else Some(DisKey(a, b))
  }

  /** The scores detection `box` gets against each track, in track order. */
  function ScoreRow(box: Box, tracks: seq<Track>): (row: seq<Option<real>>)
    ensures |row| == |tracks|
  {
    seq(|tracks|, j requires 0 <= j < |tracks| => Score(box, tracks[j].box))
  }

  /** The scores the nested loop computes: row `i` holds detection `i`'s scores. */
  function ScoreTable(boxes: seq<Box>, tracks: seq<Track>): (t: seq<seq<Option<real>>>)
    ensures |t| == |boxes|
  {
    seq(|boxes|, i requires 0 <= i < |boxes| => ScoreRow(boxes[i], tracks))
  }

  /**
   * What one round of the inner loop appends: the tuple of detection `i`
   * and track `j` when its score is strictly below `limit`, the signed
   * square of the threshold.
   */
  function PairCandidate(score: Option<real>, i: nat, j: nat, limit: real): (r: seq<ScoredPair>)
    ensures |r| <= 1
    ensures r != [] ==> score.Some? && r[0] == ScoredPair(score.value, i, j) && score.value < limit
  {
    match score
    case None => []
    case Some(key) => if key < limit then [ScoredPair(key, i, j)] else []
  }

  /** The candidate tuples of detection `i` against the first `m` tracks, in loop order. */
  function RowCandidates(row: seq<Option<real>>, i: nat, m: nat, limit: real): seq<ScoredPair>
    requires m <= |row|
  {
    if m == 0 then []
    else RowCandidates(row, i, m - 1, limit) + PairCandidate(row[m - 1], i, m - 1, limit)
  }

  /** `overlap_list` before sorting, after the first `n` detections. */
  function Candidates(table: seq<seq<Option<real>>>, n: nat, limit: real): seq<ScoredPair>
    requires n <= |table|
  {
    if n == 0 then []
    else Candidates(table, n - 1, limit) + RowCandidates(table[n - 1], n - 1, |table[n - 1]|, limit)
  }

  /** `overlap_list` for these detections and tracks. */
  function Overlaps(boxes: seq<Box>, tracks: seq<Track>, threshold: real): seq<ScoredPair> {
    Candidates(ScoreTable(boxes, tracks), |boxes|, SignedSquare(threshold))
  }

  /** A pair whose mean size is not zero and whose `box_dis` is strictly below the threshold. */
  predicate IsCandidate(boxes: seq<Box>, tracks: seq<Track>, threshold: real, p: ScoredPair) {
    p.row < |boxes| && p.col < |tracks|
    && AvgSize(boxes[p.row], tracks[p.col].box) != 0.0
    && p.score == DisKey(boxes[p.row], tracks[p.col].box)
    && p.score < SignedSquare(threshold)
  }

  /**
   * A tuple comes from the first `m` rounds of detection `i`'s inner loop
   * exactly when it names detection `i` and one of those tracks, and its
   * score is present and strictly below the limit.
   */
  lemma {:induction false} RowCandidatesMembers(row: seq<Option<real>>, i: nat, m: nat, limit: real, p: ScoredPair)
    requires m <= |row|
    ensures p in RowCandidates(row, i, m, limit) <==>
      p.row == i && p.col < m && row[p.col] == Some(p.score) && p.score < limit
  {
    if m > 0 {
      RowCandidatesMembers(row, i, m - 1, limit, p);
    }
  }

  /** A tuple of another detection is added by none of detection `n - 1`'s rounds. */
  lemma CandidatesOtherRow(table: seq<seq<Option<real>>>, n: nat, limit: real, p: ScoredPair)
    requires 0 < n <= |table| && p.row != n - 1
    ensures p in Candidates(table, n, limit) <==> p in Candidates(table, n - 1, limit)
  {
    var prev, row := Candidates(table, n - 1, limit), RowCandidates(table[n - 1], n - 1, |table[n - 1]|, limit);
    assert Candidates(table, n, limit) == prev + row;
    RowCandidatesMembers(table[n - 1], n - 1, |table[n - 1]|, limit, p);
    assert p !in row;
  }

  /** A tuple of detection `n - 1` not added before is added exactly by that detection's inner loop. */
  lemma CandidatesLastRow(table: seq<seq<Option<real>>>, n: nat, limit: real, p: ScoredPair)
    requires 0 < n <= |table|
    requires p !in Candidates(table, n - 1, limit)
    ensures p in Candidates(table, n, limit) <==> p in RowCandidates(table[n - 1], n - 1, |table[n - 1]|, limit)
  {
    var prev, row := Candidates(table, n - 1, limit), RowCandidates(table[n - 1], n - 1, |table[n - 1]|, limit);
    assert Candidates(table, n, limit) == prev + row;
  }

  /**
   * A tuple is in `overlap_list` after `n` detections exactly when it names
   * one of them and a track whose score against it is present and strictly
   * below the limit.
   */
  lemma {:induction false} CandidatesTable(table: seq<seq<Option<real>>>, n: nat, limit: real, p: ScoredPair)
    requires n <= |table|
    ensures p in Candidates(table, n, limit) <==>
      p.row < n && p.col < |table[p.row]| && table[p.row][p.col] == Some(p.score) && p.score < limit
  {
    if n > 0 {
      CandidatesTable(table, n - 1, limit, p);
      if p.row == n - 1 {
        CandidatesLastRow(table, n, limit, p);
        RowCandidatesMembers(table[n - 1], n - 1, |table[n - 1]|, limit, p);
      } else {
        CandidatesOtherRow(table, n, limit, p);
      }
    }
  }

  /** A tuple is in `overlap_list` exactly when its distance is strictly below the threshold. */
  lemma CandidatesMembers(boxes: seq<Box>, tracks: seq<Track>, threshold: real, p: ScoredPair)
    ensures p in Overlaps(boxes, tracks, threshold) <==> IsCandidate(boxes, tracks, threshold, p)
  {
    var table := ScoreTable(boxes, tracks);
    CandidatesTable(table, |boxes|, SignedSquare(threshold), p);
    if p.row < |boxes| && p.col < |tracks| {
      assert table[p.row][p.col] == Score(boxes[p.row], tracks[p.col].box);
    }
  }

  // ---------------------------------------------------------------- greedy matching

  /** `time.time() - item['last_time'] < self.max_age`. */
  predicate Live(t: Track, now: real, maxAge: real) { now - t.lastTime < maxAge }

  function Rows(acc: seq<ScoredPair>): set<nat> { set p | p in acc :: p.row }

  function Cols(acc: seq<ScoredPair>): set<nat> { set p | p in acc :: p.col }

  predicate ColsBelow(s: seq<ScoredPair>, n: nat) { forall p :: p in s ==> p.col < n }

  predicate RowsBelow(s: seq<ScoredPair>, n: nat) { forall p :: p in s ==> p.row < n }

  /**
   * The pairs the greedy pass over the sorted list accepts: a pair is taken
   * when neither its detection nor its track is taken yet and the track is live.
   */
  function Greedy(s: seq<ScoredPair>, tracks: seq<Track>, now: real, maxAge: real): (acc: seq<ScoredPair>)
    requires ColsBelow(s, |tracks|)
    ensures forall p :: p in acc ==> p in s
    decreases |s|
  {
    if s == [] then []
    else
      var acc := Greedy(s[..|s| - 1], tracks, now, maxAge);
      var p := s[|s| - 1];
      if p.row !in Rows(acc) && p.col !in Cols(acc) && Live(tracks[p.col], now, maxAge) then acc + [p] else acc
  }

  /** Every accepted pair is a candidate whose track is live. */
  lemma {:induction false} GreedySound(s: seq<ScoredPair>, tracks: seq<Track>, now: real, maxAge: real)
    requires ColsBelow(s, |tracks|)
    ensures forall p :: p in Greedy(s, tracks, now, maxAge) ==> p in s && Live(tracks[p.col], now, maxAge)
    decreases |s|
  {
    if s != [] {
      GreedySound(s[..|s| - 1], tracks, now, maxAge);
    }
  }

  /** No two pairs share a detection or a track. */
  predicate OneToOne(acc: seq<ScoredPair>) {
    forall x, y :: 0 <= x < y < |acc| ==> acc[x].row != acc[y].row && acc[x].col != acc[y].col
  }

  /** Each detection and each track is matched at most once. */
  lemma {:induction false} GreedyOneToOne(s: seq<ScoredPair>, tracks: seq<Track>, now: real, maxAge: real)
    requires ColsBelow(s, |tracks|)
    ensures OneToOne(Greedy(s, tracks, now, maxAge))
    decreases |s|
  {
    if s != [] {
      var acc := Greedy(s[..|s| - 1], tracks, now, maxAge);
      GreedyOneToOne(s[..|s| - 1], tracks, now, maxAge);
      var p := s[|s| - 1];
      if p.row !in Rows(acc) && p.col !in Cols(acc) && Live(tracks[p.col], now, maxAge) {
        var acc' := acc + [p];
        assert Greedy(s, tracks, now, maxAge) == acc';
        forall x, y | 0 <= x < y < |acc'|
          ensures acc'[x].row != acc'[y].row && acc'[x].col != acc'[y].col
        {
          if y == |acc| {
            assert acc[x] in acc;
            assert acc[x].row in Rows(acc) && acc[x].col in Cols(acc);
          } else {
            assert acc'[x] == acc[x] && acc'[y] == acc[y];
          }
        }
      }
    }
  }

  /** No candidate with a live track is left with both sides free: the matching is maximal. */
  lemma {:induction false} GreedyMaximal(s: seq<ScoredPair>, tracks: seq<Track>, now: real, maxAge: real)
    requires ColsBelow(s, |tracks|)
    ensures var acc := Greedy(s, tracks, now, maxAge);
      forall p :: p in s && Live(tracks[p.col], now, maxAge) ==> p.row in Rows(acc) || p.col in Cols(acc)
    decreases |s|
  {
    if s != [] {
      var prefix := s[..|s| - 1];
      GreedyMaximal(prefix, tracks, now, maxAge);
      var acc := Greedy(s, tracks, now, maxAge);
      var prev := Greedy(prefix, tracks, now, maxAge);
      assert Rows(prev) <= Rows(acc) && Cols(prev) <= Cols(acc);
      forall p | p in s && Live(tracks[p.col], now, maxAge)
        ensures p.row in Rows(acc) || p.col in Cols(acc)
      {
        if p !in prefix {
          assert p == s[|s| - 1] by { assert s == prefix + [s[|s| - 1]]; }
        }
      }
    }
  }

  /**
   * Nearest first: over a sorted list, a live candidate that is not
   * accepted lost to an accepted pair sharing its detection or its track
   * whose tuple is not above its own.
   */
  lemma {:induction false} GreedyNearestFirst(s: seq<ScoredPair>, tracks: seq<Track>, now: real, maxAge: real)
    requires ColsBelow(s, |tracks|)
    requires Sorted(s)
    ensures var acc := Greedy(s, tracks, now, maxAge);
      forall p :: p in s && Live(tracks[p.col], now, maxAge) && p !in acc ==>
        exists q :: q in acc && (q.row == p.row || q.col == p.col) && NotAbove(q, p)
    decreases |s|
  {
    if s != [] {
      var prefix := s[..|s| - 1];
      var last := s[|s| - 1];
      assert s == prefix + [last];
      GreedyNearestFirst(prefix, tracks, now, maxAge);
      GreedySound(prefix, tracks, now, maxAge);
      var acc := Greedy(s, tracks, now, maxAge);
      var prev := Greedy(prefix, tracks, now, maxAge);
      assert forall q :: q in prev ==> q in acc;
      forall p | p in s && Live(tracks[p.col], now, maxAge) && p !in acc
        ensures exists q :: q in acc && (q.row == p.row || q.col == p.col) && NotAbove(q, p)
      {
        if p in prefix {
          assert p !in prev;
        } else {
          assert p == last;
          assert p.row in Rows(prev) || p.col in Cols(prev);
          var q :| q in prev && (q.row == p.row || q.col == p.col);
          assert q in prefix;
          var k :| 0 <= k < |prefix| && prefix[k] == q;
          assert s[k] == q;
          assert NotAbove(s[k], s[|s| - 1]);
        }
      }
    }
  }

  /**
   * Greedy nearest-first example: detection 0 and track 0 are 0.1 apart,
   * detection 1 and track 0 are 0.15 apart, detection 0 and track 1 are
   * 0.2 apart. Only detection 0 with track 0 is matched; detection 1 is
   * left for a new track.
   */
  lemma GreedyExample(tracks: seq<Track>, now: real, maxAge: real)
    requires |tracks| == 2
    requires Live(tracks[0], now, maxAge) && Live(tracks[1], now, maxAge)
    ensures var s := [ScoredPair(0.1, 0, 0), ScoredPair(0.15, 1, 0), ScoredPair(0.2, 0, 1)];
      Greedy(s, tracks, now, maxAge) == [ScoredPair(0.1, 0, 0)]
  {
    var s := [ScoredPair(0.1, 0, 0), ScoredPair(0.15, 1, 0), ScoredPair(0.2, 0, 1)];
    assert s[..1] == [ScoredPair(0.1, 0, 0)];
    assert s[..1][..0] == [];
    assert s[..2][..1] == s[..1];
    assert s[..2] == [ScoredPair(0.1, 0, 0), ScoredPair(0.15, 1, 0)];
    assert Greedy(s[..1], tracks, now, maxAge) == [ScoredPair(0.1, 0, 0)];
    assert Greedy(s[..2], tracks, now, maxAge) == [ScoredPair(0.1, 0, 0)];
  }

  // ---------------------------------------------------------------- the frame's outcome

  /** `sorted(overlap_list)` reduced by the greedy pass. */
  function Accepted(boxes: seq<Box>, tracks: seq<Track>, now: real, maxAge: real, threshold: real): (acc: seq<ScoredPair>)
    ensures RowsBelow(acc, |boxes|) && ColsBelow(acc, |tracks|)
  {
    var sorted := Sort(Overlaps(boxes, tracks, threshold));
    SortedCandidatesBelow(boxes, tracks, threshold);
    GreedySound(sorted, tracks, now, maxAge);
    Greedy(sorted, tracks, now, maxAge)
  }

  lemma SortedCandidatesBelow(boxes: seq<Box>, tracks: seq<Track>, threshold: real)
    ensures var sorted := Sort(Overlaps(boxes, tracks, threshold));
      RowsBelow(sorted, |boxes|) && ColsBelow(sorted, |tracks|)
  {
    var cands := Overlaps(boxes, tracks, threshold);
    var sorted := Sort(cands);
    forall p | p in sorted
      ensures p.row < |boxes| && p.col < |tracks|
    {
      assert p in multiset(sorted);
      assert p in cands;
      CandidatesMembers(boxes, tracks, threshold, p);
    }
  }

  /** A matched track keeps its id and first sighting and takes the detection's box and the current time. */
  function Refresh(t: Track, box: Box, now: real): Track {
    t.(box := box, lastTime := now)
  }

  /** The matched part of `new_track_list`, in acceptance order. */
  function Matched(acc: seq<ScoredPair>, tracks: seq<Track>, boxes: seq<Box>, now: real): seq<Track>
    requires RowsBelow(acc, |boxes|) && ColsBelow(acc, |tracks|)
  {
    if acc == [] then []
    else
      var p := acc[|acc| - 1];
      Matched(acc[..|acc| - 1], tracks, boxes, now) + [Refresh(tracks[p.col], boxes[p.row], now)]
  }

  /** How many of the first `n` detections are unmatched. */
  function Unmatched(rows: set<nat>, n: nat): nat {
    if n == 0 then 0 else Unmatched(rows, n - 1) + (if n - 1 in rows then 0 else 1)
  }

  /** The spawned part of `new_track_list`: one fresh track per unmatched detection among the first `n`. */
  function Spawned(boxes: seq<Box>, rows: set<nat>, n: nat, nextId: nat, now: real): seq<Track>
    requires n <= |boxes|
  {
    if n == 0 then []
    else
      Spawned(boxes, rows, n - 1, nextId, now)
        + (if n - 1 in rows then [] else [Track(nextId + Unmatched(rows, n - 1), boxes[n - 1], now, now)])
  }

  /** `item['last_time'] - item['first_time'] > MIN_LIVE_TIME`. */
  predicate Qualifies(t: Track, minLiveTime: real) { t.lastTime - t.firstTime > minLiveTime }

  /** The unmatched, still live tracks among the first `m`, in their old order. */
  function Kept(tracks: seq<Track>, cols: set<nat>, m: nat, now: real, maxAge: real): seq<Track>
    requires m <= |tracks|
  {
    if m == 0 then []
    else
      Kept(tracks, cols, m - 1, now, maxAge)
        + (if m - 1 !in cols && Live(tracks[m - 1], now, maxAge) then [tracks[m - 1]] else [])
  }

  /** `counted_ids`: the ids of unmatched, expired tracks among the first `m` that lived long enough. */
  function Counted(tracks: seq<Track>, cols: set<nat>, m: nat, now: real, maxAge: real, minLiveTime: real): seq<nat>
    requires m <= |tracks|
  {
    if m == 0 then []
    else
      Counted(tracks, cols, m - 1, now, maxAge, minLiveTime)
        + (var t := tracks[m - 1];
           if m - 1 !in cols && !Live(t, now, maxAge) && Qualifies(t, minLiveTime) then [t.id] else [])
  }

  /** The ids of the tracks the frame drops: unmatched and expired, counted or not. */
  function DroppedIds(tracks: seq<Track>, cols: set<nat>, now: real, maxAge: real): set<nat> {
    set j | 0 <= j < |tracks| && j !in cols && !Live(tracks[j], now, maxAge) :: tracks[j].id
  }

  /** `ret_ids` after the greedy pass: matched detections hold their track's id, the others `None`. */
  function MatchIds(acc: seq<ScoredPair>, n: nat, tracks: seq<Track>): (ids: seq<Option<nat>>)
    requires RowsBelow(acc, n) && ColsBelow(acc, |tracks|)
    ensures |ids| == n
  {
    if acc == [] then seq(n, _ => None)
    else
      var p := acc[|acc| - 1];
      MatchIds(acc[..|acc| - 1], n, tracks)[p.row := Some(tracks[p.col].id)]
  }

  /** `ret_ids` after the spawning loop has visited the first `k` detections. */
  function AssignIds(ids: seq<Option<nat>>, rows: set<nat>, k: nat, nextId: nat): (r: seq<Option<nat>>)
    requires k <= |ids|
    ensures |r| == |ids|
  {
    if k == 0 then ids
    else
      var prev := AssignIds(ids, rows, k - 1, nextId);
      if k - 1 in rows then prev else prev[k - 1 := Some(nextId + Unmatched(rows, k - 1))]
  }

  /** What one call of `update` produces when no `box_dis` divides by zero. */
  datatype Outcome = Outcome(items: seq<Track>, ids: seq<Option<nat>>, counted: seq<nat>, spawned: nat)

  /** `new_track_list`, `ret_ids` and `counted_ids` for a given set of accepted pairs. */
  function Assemble(acc: seq<ScoredPair>, tracks: seq<Track>, boxes: seq<Box>, now: real, nextId: nat,
                    maxAge: real, minLiveTime: real): Outcome
    requires RowsBelow(acc, |boxes|) && ColsBelow(acc, |tracks|)
  {
    var rows, cols := Rows(acc), Cols(acc);
    Outcome(
      Matched(acc, tracks, boxes, now) + Spawned(boxes, rows, |boxes|, nextId, now) + Kept(tracks, cols, |tracks|, now, maxAge),
      AssignIds(MatchIds(acc, |boxes|, tracks), rows, |boxes|, nextId),
      Counted(tracks, cols, |tracks|, now, maxAge, minLiveTime),
      Unmatched(rows, |boxes|))
  }

  function Step(tracks: seq<Track>, boxes: seq<Box>, now: real, nextId: nat,
                maxAge: real, minLiveTime: real, threshold: real): Outcome
  {
    Assemble(Accepted(boxes, tracks, now, maxAge, threshold), tracks, boxes, now, nextId, maxAge, minLiveTime)
  }

  // ---------------------------------------------------------------- facts about the parts

  function IdsOf(ts: seq<Track>): set<nat> { set t | t in ts :: t.id }

  /** No two tracks in the list share an id. */
  predicate DistinctTrackIds(ts: seq<Track>) {
    forall x, y :: 0 <= x < y < |ts| ==> ts[x].id != ts[y].id
  }

  predicate NoDuplicates(s: seq<nat>) {
    forall x, y :: 0 <= x < y < |s| ==> s[x] != s[y]
  }

  lemma {:induction false} MatchedAt(acc: seq<ScoredPair>, tracks: seq<Track>, boxes: seq<Box>, now: real)
    requires RowsBelow(acc, |boxes|) && ColsBelow(acc, |tracks|)
    ensures |Matched(acc, tracks, boxes, now)| == |acc|
    ensures forall k :: 0 <= k < |acc| ==>
      Matched(acc, tracks, boxes, now)[k] == Refresh(tracks[acc[k].col], boxes[acc[k].row], now)
    decreases |acc|
  {
    if acc != [] {
      var pre := acc[..|acc| - 1];
      var last := acc[|acc| - 1];
      MatchedAt(pre, tracks, boxes, now);
      var m := Matched(acc, tracks, boxes, now);
      assert m == Matched(pre, tracks, boxes, now) + [Refresh(tracks[last.col], boxes[last.row], now)];
      forall k | 0 <= k < |acc|
        ensures m[k] == Refresh(tracks[acc[k].col], boxes[acc[k].row], now)
      {
        if k < |pre| {
          assert acc[k] == pre[k];
        }
      }
    }
  }

  lemma {:induction false} UnmatchedGrows(rows: set<nat>, i: nat, n: nat)
    requires i < n && i !in rows
    ensures Unmatched(rows, i) < Unmatched(rows, n)
    decreases n
  {
    if i < n - 1 {
      UnmatchedGrows(rows, i, n - 1);
    }
  }

  lemma {:induction false} SpawnedLength(boxes: seq<Box>, rows: set<nat>, n: nat, nextId: nat, now: real)
    requires n <= |boxes|
    ensures |Spawned(boxes, rows, n, nextId, now)| == Unmatched(rows, n)
    decreases n
  {
    if n > 0 {
      SpawnedLength(boxes, rows, n - 1, nextId, now);
    }
  }

  /** The k-th spawned track has id `nextId + k` and was first and last seen now. */
  lemma {:induction false} SpawnedFresh(boxes: seq<Box>, rows: set<nat>, n: nat, nextId: nat, now: real)
    requires n <= |boxes|
    ensures |Spawned(boxes, rows, n, nextId, now)| == Unmatched(rows, n)
    ensures forall k :: 0 <= k < Unmatched(rows, n) ==>
      var t := Spawned(boxes, rows, n, nextId, now)[k];
      t.id == nextId + k && t.firstTime == now && t.lastTime == now
    decreases n
  {
    SpawnedLength(boxes, rows, n, nextId, now);
    if n > 0 {
      SpawnedFresh(boxes, rows, n - 1, nextId, now);
    }
  }

  /** Unmatched detection `i` spawned the track at position `Unmatched(rows, i)`, carrying its box. */
  lemma {:induction false} SpawnedSlot(boxes: seq<Box>, rows: set<nat>, n: nat, nextId: nat, now: real, i: nat)
    requires n <= |boxes|
    requires i < n && i !in rows
    ensures Unmatched(rows, i) < |Spawned(boxes, rows, n, nextId, now)|
    ensures Spawned(boxes, rows, n, nextId, now)[Unmatched(rows, i)] == Track(nextId + Unmatched(rows, i), boxes[i], now, now)
    decreases n
  {
    SpawnedLength(boxes, rows, n, nextId, now);
    SpawnedLength(boxes, rows, n - 1, nextId, now);
    UnmatchedGrows(rows, i, n);
    if i < n - 1 {
      SpawnedSlot(boxes, rows, n - 1, nextId, now, i);
    }
  }

  /** Every spawned track carries the box of an unmatched detection. */
  lemma {:induction false} SpawnedBoxes(boxes: seq<Box>, rows: set<nat>, n: nat, nextId: nat, now: real)
    requires n <= |boxes|
    ensures forall t :: t in Spawned(boxes, rows, n, nextId, now) ==>
      exists i :: 0 <= i < n && i !in rows && t.box == boxes[i]
    decreases n
  {
    if n > 0 {
      SpawnedBoxes(boxes, rows, n - 1, nextId, now);
    }
  }

  lemma {:induction false} KeptMembers(tracks: seq<Track>, cols: set<nat>, m: nat, now: real, maxAge: real)
    requires m <= |tracks|
    ensures forall t :: t in Kept(tracks, cols, m, now, maxAge) ==>
      exists j :: 0 <= j < m && j !in cols && Live(tracks[j], now, maxAge) && tracks[j] == t
    ensures forall j :: 0 <= j < m && j !in cols && Live(tracks[j], now, maxAge) ==>
      tracks[j] in Kept(tracks, cols, m, now, maxAge)
    decreases m
  {
    if m > 0 {
      KeptMembers(tracks, cols, m - 1, now, maxAge);
    }
  }

  lemma {:induction false} KeptDistinct(tracks: seq<Track>, cols: set<nat>, m: nat, now: real, maxAge: real)
    requires m <= |tracks|
    requires DistinctTrackIds(tracks)
    ensures DistinctTrackIds(Kept(tracks, cols, m, now, maxAge))
    decreases m
  {
    if m > 0 {
      KeptDistinct(tracks, cols, m - 1, now, maxAge);
      KeptMembers(tracks, cols, m - 1, now, maxAge);
      var prev := Kept(tracks, cols, m - 1, now, maxAge);
      forall x | 0 <= x < |prev|
        ensures prev[x].id != tracks[m - 1].id
      {
        assert prev[x] in prev;
      }
    }
  }

  lemma {:induction false} CountedMembers(tracks: seq<Track>, cols: set<nat>, m: nat, now: real, maxAge: real, minLiveTime: real)
    requires m <= |tracks|
    ensures forall id :: id in Counted(tracks, cols, m, now, maxAge, minLiveTime) <==>
      exists j :: 0 <= j < m && j !in cols && !Live(tracks[j], now, maxAge) && Qualifies(tracks[j], minLiveTime) && tracks[j].id == id
    decreases m
  {
    if m > 0 {
      CountedMembers(tracks, cols, m - 1, now, maxAge, minLiveTime);
    }
  }

  lemma {:induction false} CountedDistinct(tracks: seq<Track>, cols: set<nat>, m: nat, now: real, maxAge: real, minLiveTime: real)
    requires m <= |tracks|
    requires DistinctTrackIds(tracks)
    ensures NoDuplicates(Counted(tracks, cols, m, now, maxAge, minLiveTime))
    decreases m
  {
    if m > 0 {
      CountedDistinct(tracks, cols, m - 1, now, maxAge, minLiveTime);
      CountedMembers(tracks, cols, m - 1, now, maxAge, minLiveTime);
      var prev := Counted(tracks, cols, m - 1, now, maxAge, minLiveTime);
      forall x | 0 <= x < |prev|
        ensures prev[x] != tracks[m - 1].id
      {
        assert prev[x] in prev;
      }
    }
  }

  lemma {:induction false} MatchIdsAt(acc: seq<ScoredPair>, n: nat, tracks: seq<Track>, i: nat)
    requires RowsBelow(acc, n) && ColsBelow(acc, |tracks|)
    requires i < n
    ensures i !in Rows(acc) ==> MatchIds(acc, n, tracks)[i] == None
    ensures i in Rows(acc) ==>
      exists k :: 0 <= k < |acc| && acc[k].row == i && MatchIds(acc, n, tracks)[i] == Some(tracks[acc[k].col].id)
    decreases |acc|
  {
    if acc != [] {
      var prefix := acc[..|acc| - 1];
      var p := acc[|acc| - 1];
      assert acc == prefix + [p];
      MatchIdsAt(prefix, n, tracks, i);
      if i != p.row && i in Rows(acc) {
        var q :| q in acc && q.row == i;
        assert q in prefix;
      }
    }
  }

  lemma {:induction false} AssignIdsAt(ids: seq<Option<nat>>, rows: set<nat>, k: nat, nextId: nat, i: nat)
    requires k <= |ids| && i < |ids|
    ensures AssignIds(ids, rows, k, nextId)[i] ==
      if i < k && i !in rows then Some(nextId + Unmatched(rows, i)) else ids[i]
    decreases k
  {
    if k > 0 {
      AssignIdsAt(ids, rows, k - 1, nextId, i);
    }
  }

  // ---------------------------------------------------------------- facts about a frame

  /** The accepted matching is one-to-one, and each accepted pair is a candidate whose track is live. */
  lemma AcceptedSound(boxes: seq<Box>, tracks: seq<Track>, now: real, maxAge: real, threshold: real)
    ensures var acc := Accepted(boxes, tracks, now, maxAge, threshold);
      OneToOne(acc)
      && forall p :: p in acc ==> IsCandidate(boxes, tracks, threshold, p) && Live(tracks[p.col], now, maxAge)
  {
    var cands := Overlaps(boxes, tracks, threshold);
    var sorted := Sort(cands);
    SortedCandidatesBelow(boxes, tracks, threshold);
    GreedyOneToOne(sorted, tracks, now, maxAge);
    GreedySound(sorted, tracks, now, maxAge);
    forall p | p in Accepted(boxes, tracks, now, maxAge, threshold)
      ensures IsCandidate(boxes, tracks, threshold, p)
    {
      assert p in multiset(sorted);
      assert p in cands;
      CandidatesMembers(boxes, tracks, threshold, p);
    }
  }

  /**
   * The accepted matching is maximal and nearest first: every candidate
   * with a live track has its detection or its track matched, and when it
   * is not itself accepted, a pair sharing one of its sides whose tuple is
   * not above its own was.
   */
  lemma AcceptedMaximalNearestFirst(boxes: seq<Box>, tracks: seq<Track>, now: real, maxAge: real, threshold: real, p: ScoredPair)
    requires IsCandidate(boxes, tracks, threshold, p) && Live(tracks[p.col], now, maxAge)
    ensures var acc := Accepted(boxes, tracks, now, maxAge, threshold);
      (p.row in Rows(acc) || p.col in Cols(acc))
      && (p !in acc ==> exists q :: q in acc && (q.row == p.row || q.col == p.col) && NotAbove(q, p))
  {
    var cands := Overlaps(boxes, tracks, threshold);
    var sorted := Sort(cands);
    SortedCandidatesBelow(boxes, tracks, threshold);
    CandidatesMembers(boxes, tracks, threshold, p);
    assert p in multiset(cands);
    assert p in sorted;
    GreedyMaximal(sorted, tracks, now, maxAge);
    GreedyNearestFirst(sorted, tracks, now, maxAge);
  }

  lemma DistinctAppend(a: seq<Track>, b: seq<Track>)
    requires DistinctTrackIds(a) && DistinctTrackIds(b)
    requires forall x, y :: 0 <= x < |a| && 0 <= y < |b| ==> a[x].id != b[y].id
    ensures DistinctTrackIds(a + b)
  {
    var c := a + b;
    forall x, y | 0 <= x < y < |c|
      ensures c[x].id != c[y].id
    {
      if y < |a| {
      } else if x >= |a| {
        assert c[x] == b[x - |a|] && c[y] == b[y - |a|];
      } else {
        assert c[y] == b[y - |a|];
      }
    }
  }

  /** The matched tracks keep their old, distinct ids, all below `nextId`. */
  lemma MatchedDistinct(acc: seq<ScoredPair>, tracks: seq<Track>, boxes: seq<Box>, now: real, nextId: nat)
    requires RowsBelow(acc, |boxes|) && ColsBelow(acc, |tracks|) && OneToOne(acc)
    requires DistinctTrackIds(tracks)
    requires forall t :: t in tracks ==> t.id < nextId
    ensures var m := Matched(acc, tracks, boxes, now);
      |m| == |acc| && DistinctTrackIds(m)
      && forall k :: 0 <= k < |m| ==> m[k].id == tracks[acc[k].col].id && m[k].id < nextId
  {
    var m := Matched(acc, tracks, boxes, now);
    MatchedAt(acc, tracks, boxes, now);
    forall k | 0 <= k < |m|
      ensures m[k].id == tracks[acc[k].col].id && m[k].id < nextId
    {
      assert acc[k] in acc;
      assert tracks[acc[k].col] in tracks;
    }
    forall x, y | 0 <= x < y < |m|
      ensures m[x].id != m[y].id
    {
      assert acc[x].col != acc[y].col;
    }
  }

  /** No track of `a` shares its id with a track of `b`. */
  predicate IdsApart(a: seq<Track>, b: seq<Track>) {
    forall x, y :: 0 <= x < |a| && 0 <= y < |b| ==> a[x].id != b[y].id
  }

  /** No matched or spawned track shares an id with a kept track. */
  lemma KeptApart(acc: seq<ScoredPair>, tracks: seq<Track>, boxes: seq<Box>, now: real, nextId: nat, maxAge: real)
    requires RowsBelow(acc, |boxes|) && ColsBelow(acc, |tracks|) && OneToOne(acc)
    requires DistinctTrackIds(tracks)
    requires forall t :: t in tracks ==> t.id < nextId
    ensures IdsApart(Matched(acc, tracks, boxes, now) + Spawned(boxes, Rows(acc), |boxes|, nextId, now),
                     Kept(tracks, Cols(acc), |tracks|, now, maxAge))
  {
    var rows, cols := Rows(acc), Cols(acc);
    var m := Matched(acc, tracks, boxes, now);
    var sp := Spawned(boxes, rows, |boxes|, nextId, now);
    var kept := Kept(tracks, cols, |tracks|, now, maxAge);
    MatchedAt(acc, tracks, boxes, now);
    SpawnedFresh(boxes, rows, |boxes|, nextId, now);
    KeptMembers(tracks, cols, |tracks|, now, maxAge);
    var ms: seq<Track> := m + sp;
    forall x, y | 0 <= x < |ms| && 0 <= y < |kept|
      ensures ms[x].id != kept[y].id
    {
      assert kept[y] in kept;
      var j :| 0 <= j < |tracks| && j !in cols && Live(tracks[j], now, maxAge) && tracks[j] == kept[y];
      assert tracks[j] in tracks;
      if x < |m| {
        assert acc[x] in acc;
        assert acc[x].col != j;
      } else {
        assert ms[x] == sp[x - |m|];
      }
    }
  }

  /**
   * No track appears twice in `new_track_list`, and every id in it is
   * below the advanced counter.
   */
  lemma AssembleDistinct(acc: seq<ScoredPair>, tracks: seq<Track>, boxes: seq<Box>, now: real, nextId: nat,
                         maxAge: real, minLiveTime: real)
    requires RowsBelow(acc, |boxes|) && ColsBelow(acc, |tracks|) && OneToOne(acc)
    requires DistinctTrackIds(tracks)
    requires forall t :: t in tracks ==> t.id < nextId
    ensures var out := Assemble(acc, tracks, boxes, now, nextId, maxAge, minLiveTime);
      DistinctTrackIds(out.items) && forall t :: t in out.items ==> t.id < nextId + out.spawned
  {
    var rows, cols := Rows(acc), Cols(acc);
    var m := Matched(acc, tracks, boxes, now);
    var sp := Spawned(boxes, rows, |boxes|, nextId, now);
    var kept := Kept(tracks, cols, |tracks|, now, maxAge);
    MatchedDistinct(acc, tracks, boxes, now, nextId);
    SpawnedFresh(boxes, rows, |boxes|, nextId, now);
    KeptMembers(tracks, cols, |tracks|, now, maxAge);
    KeptDistinct(tracks, cols, |tracks|, now, maxAge);
    DistinctAppend(m, sp);
    KeptApart(acc, tracks, boxes, now, nextId, maxAge);
    DistinctAppend(m + sp, kept);
    forall t: Track | t in m + sp + kept
      ensures t.id < nextId + Unmatched(rows, |boxes|)
    {
      if t in kept {
        var j :| 0 <= j < |tracks| && j !in cols && Live(tracks[j], now, maxAge) && tracks[j] == t;
        assert tracks[j] in tracks;
      }
    }
  }

  /**
   * `update` returns exactly one id per input box and none is left `None`:
   * each is the id of a track in the new list that now carries that box
   * and was seen now.
   */
  lemma AssembleIdsCoverBoxes(acc: seq<ScoredPair>, tracks: seq<Track>, boxes: seq<Box>, now: real, nextId: nat,
                              maxAge: real, minLiveTime: real)
    requires RowsBelow(acc, |boxes|) && ColsBelow(acc, |tracks|)
    ensures var out := Assemble(acc, tracks, boxes, now, nextId, maxAge, minLiveTime);
      |out.ids| == |boxes|
      && forall i :: 0 <= i < |boxes| ==>
        (out.ids[i].Some?
         && exists k :: 0 <= k < |out.items| && out.items[k].id == out.ids[i].value
              && out.items[k].box == boxes[i] && out.items[k].lastTime == now)
  {
    var out := Assemble(acc, tracks, boxes, now, nextId, maxAge, minLiveTime);
    var rows, cols := Rows(acc), Cols(acc);
    var m := Matched(acc, tracks, boxes, now);
    var sp := Spawned(boxes, rows, |boxes|, nextId, now);
    var kept := Kept(tracks, cols, |tracks|, now, maxAge);
    var ids0 := MatchIds(acc, |boxes|, tracks);
    assert out.items == m + sp + kept;
    MatchedAt(acc, tracks, boxes, now);
    forall i | 0 <= i < |boxes|
      ensures out.ids[i].Some?
      ensures exists k :: (0 <= k < |out.items| && out.items[k].id == out.ids[i].value
        && out.items[k].box == boxes[i] && out.items[k].lastTime == now)
    {
      AssignIdsAt(ids0, rows, |boxes|, nextId, i);
      if i in rows {
        MatchIdsAt(acc, |boxes|, tracks, i);
        var k :| 0 <= k < |acc| && acc[k].row == i && ids0[i] == Some(tracks[acc[k].col].id);
        assert out.items[k] == m[k];
      } else {
        SpawnedSlot(boxes, rows, |boxes|, nextId, now, i);
        var u := Unmatched(rows, i);
        assert out.items[|m| + u] == sp[u];
      }
    }
  }

  /**
   * Distinct boxes receive distinct ids; a matched box receives an old
   * track's id and an unmatched one a fresh id.
   */
  lemma AssembleIdsDistinct(acc: seq<ScoredPair>, tracks: seq<Track>, boxes: seq<Box>, now: real, nextId: nat,
                            maxAge: real, minLiveTime: real)
    requires RowsBelow(acc, |boxes|) && ColsBelow(acc, |tracks|) && OneToOne(acc)
    requires DistinctTrackIds(tracks)
    requires forall t :: t in tracks ==> t.id < nextId
    ensures var out := Assemble(acc, tracks, boxes, now, nextId, maxAge, minLiveTime);
      |out.ids| == |boxes|
      && (forall i :: 0 <= i < |boxes| ==>
            (out.ids[i].Some?
             && (i in Rows(acc) ==> out.ids[i].value in IdsOf(tracks))
             && (i !in Rows(acc) ==> out.ids[i].value >= nextId)))
      && forall i, i' :: 0 <= i < i' < |boxes| ==> out.ids[i] != out.ids[i']
  {
    var out := Assemble(acc, tracks, boxes, now, nextId, maxAge, minLiveTime);
    var rows := Rows(acc);
    var ids0 := MatchIds(acc, |boxes|, tracks);
    forall i | 0 <= i < |boxes|
      ensures out.ids[i].Some?
      ensures i in rows ==> out.ids[i].value in IdsOf(tracks) && out.ids[i].value < nextId
      ensures i !in rows ==> out.ids[i] == Some(nextId + Unmatched(rows, i))
    {
      AssignIdsAt(ids0, rows, |boxes|, nextId, i);
      if i in rows {
        MatchIdsAt(acc, |boxes|, tracks, i);
        var k :| 0 <= k < |acc| && acc[k].row == i && ids0[i] == Some(tracks[acc[k].col].id);
        assert acc[k] in acc;
        assert tracks[acc[k].col] in tracks;
      }
    }
    forall i, i' | 0 <= i < i' < |boxes|
      ensures out.ids[i] != out.ids[i']
    {
      if i in rows && i' in rows {
        AssignIdsAt(ids0, rows, |boxes|, nextId, i);
        AssignIdsAt(ids0, rows, |boxes|, nextId, i');
        MatchIdsAt(acc, |boxes|, tracks, i);
        MatchIdsAt(acc, |boxes|, tracks, i');
        var k :| 0 <= k < |acc| && acc[k].row == i && ids0[i] == Some(tracks[acc[k].col].id);
        var k' :| 0 <= k' < |acc| && acc[k'].row == i' && ids0[i'] == Some(tracks[acc[k'].col].id);
        assert k != k';
        assert acc[k].col != acc[k'].col;
        assert acc[k] in acc && acc[k'] in acc;
      } else if i !in rows && i' !in rows {
        UnmatchedGrows(rows, i, i');
      }
    }
  }

  /** Each accepted pair leaves its refreshed track in the matched part. */
  lemma MatchedRefreshed(acc: seq<ScoredPair>, tracks: seq<Track>, boxes: seq<Box>, now: real)
    requires RowsBelow(acc, |boxes|) && ColsBelow(acc, |tracks|)
    ensures forall p :: p in acc ==> Refresh(tracks[p.col], boxes[p.row], now) in Matched(acc, tracks, boxes, now)
  {
    var m := Matched(acc, tracks, boxes, now);
    MatchedAt(acc, tracks, boxes, now);
    forall p | p in acc
      ensures Refresh(tracks[p.col], boxes[p.row], now) in m
    {
      var k :| 0 <= k < |acc| && acc[k] == p;
      assert m[k] == Refresh(tracks[p.col], boxes[p.row], now);
    }
  }

  /** A matched track carries the id of an old track. */
  lemma MatchedFromTracks(acc: seq<ScoredPair>, tracks: seq<Track>, boxes: seq<Box>, now: real)
    requires RowsBelow(acc, |boxes|) && ColsBelow(acc, |tracks|)
    ensures forall t :: t in Matched(acc, tracks, boxes, now) ==> t.id in IdsOf(tracks)
  {
    var m := Matched(acc, tracks, boxes, now);
    MatchedAt(acc, tracks, boxes, now);
    forall t | t in m
      ensures t.id in IdsOf(tracks)
    {
      var k :| 0 <= k < |m| && m[k] == t;
      assert acc[k] in acc;
      assert tracks[acc[k].col] in tracks;
    }
  }

  /** A spawned track has a fresh id, was first and last seen now, and carries an unmatched box. */
  lemma SpawnedOrigin(boxes: seq<Box>, rows: set<nat>, nextId: nat, now: real)
    ensures forall t :: t in Spawned(boxes, rows, |boxes|, nextId, now) ==>
      nextId <= t.id && t.firstTime == now && t.lastTime == now
      && exists i :: 0 <= i < |boxes| && i !in rows && t.box == boxes[i]
  {
    var sp := Spawned(boxes, rows, |boxes|, nextId, now);
    SpawnedFresh(boxes, rows, |boxes|, nextId, now);
    SpawnedBoxes(boxes, rows, |boxes|, nextId, now);
    forall t | t in sp
      ensures nextId <= t.id && t.firstTime == now && t.lastTime == now
    {
      var k :| 0 <= k < |sp| && sp[k] == t;
    }
  }

  /** The id of every spawned track is returned for some box. */
  lemma SpawnedReported(ids: seq<Option<nat>>, boxes: seq<Box>, rows: set<nat>, nextId: nat, now: real)
    requires |ids| == |boxes|
    ensures forall t :: t in Spawned(boxes, rows, |boxes|, nextId, now) ==>
      Some(t.id) in AssignIds(ids, rows, |boxes|, nextId)
  {
    var sp := Spawned(boxes, rows, |boxes|, nextId, now);
    var r := AssignIds(ids, rows, |boxes|, nextId);
    SpawnedFresh(boxes, rows, |boxes|, nextId, now);
    forall t | t in sp
      ensures Some(t.id) in r
    {
      var k :| 0 <= k < |sp| && sp[k] == t;
      UnmatchedReached(rows, |boxes|, k);
      var i :| 0 <= i < |boxes| && i !in rows && Unmatched(rows, i) == k;
      AssignIdsAt(ids, rows, |boxes|, nextId, i);
      assert r[i] == Some(t.id);
    }
  }

  /** Every kept track is an old track. */
  lemma KeptFromTracks(tracks: seq<Track>, cols: set<nat>, now: real, maxAge: real)
    ensures forall t :: t in Kept(tracks, cols, |tracks|, now, maxAge) ==> t in tracks && t.id in IdsOf(tracks)
  {
    KeptMembers(tracks, cols, |tracks|, now, maxAge);
  }

  /**
   * A matched track keeps its id and first sighting, takes the new box and
   * `last_time = now`; every other track in the new list is an old one or
   * a spawned one, first and last seen now, carrying the box of an
   * unmatched detection.
   */
  lemma AssembleRefreshedOrSpawned(acc: seq<ScoredPair>, tracks: seq<Track>, boxes: seq<Box>, now: real, nextId: nat,
                                   maxAge: real, minLiveTime: real)
    requires RowsBelow(acc, |boxes|) && ColsBelow(acc, |tracks|)
    requires forall t :: t in tracks ==> t.id < nextId
    ensures var out := Assemble(acc, tracks, boxes, now, nextId, maxAge, minLiveTime);
      (forall p :: p in acc ==> Refresh(tracks[p.col], boxes[p.row], now) in out.items)
      && (forall t :: t in out.items ==> t.id in IdsOf(tracks) || nextId <= t.id)
      && (forall t :: t in out.items && t.id >= nextId ==>
            (t.firstTime == now && t.lastTime == now
             && exists i :: 0 <= i < |boxes| && i !in Rows(acc) && t.box == boxes[i]))
  {
    var rows, cols := Rows(acc), Cols(acc);
    var m := Matched(acc, tracks, boxes, now);
    var sp := Spawned(boxes, rows, |boxes|, nextId, now);
    var kept := Kept(tracks, cols, |tracks|, now, maxAge);
    MatchedRefreshed(acc, tracks, boxes, now);
    MatchedFromTracks(acc, tracks, boxes, now);
    SpawnedOrigin(boxes, rows, nextId, now);
    KeptFromTracks(tracks, cols, now, maxAge);
    assert forall id :: id in IdsOf(tracks) ==> id < nextId;
    forall t: Track | t in m + sp + kept
      ensures t.id in IdsOf(tracks) || nextId <= t.id
      ensures t.id >= nextId ==> (t.firstTime == now && t.lastTime == now
        && exists i :: 0 <= i < |boxes| && i !in rows && t.box == boxes[i])
    {
      assert t in m || t in sp || t in kept;
    }
  }

  /**
   * An unmatched old track stays in the list exactly when it is live; it is
   * in `counted_ids` exactly when it expired and lived longer than the
   * minimum.
   */
  lemma AssembleUnmatchedTrack(acc: seq<ScoredPair>, tracks: seq<Track>, boxes: seq<Box>, now: real, nextId: nat,
                               maxAge: real, minLiveTime: real, j: nat)
    requires RowsBelow(acc, |boxes|) && ColsBelow(acc, |tracks|)
    requires DistinctTrackIds(tracks)
    requires forall t :: t in tracks ==> t.id < nextId
    requires j < |tracks| && j !in Cols(acc)
    ensures var out := Assemble(acc, tracks, boxes, now, nextId, maxAge, minLiveTime);
      (tracks[j].id in IdsOf(out.items) <==> Live(tracks[j], now, maxAge))
      && (tracks[j].id in out.counted <==> !Live(tracks[j], now, maxAge) && Qualifies(tracks[j], minLiveTime))
  {
    UnmatchedTrackSurvives(acc, tracks, boxes, now, nextId, maxAge, j);
    var cols := Cols(acc);
    CountedMembers(tracks, cols, |tracks|, now, maxAge, minLiveTime);
  }

  /** A track no pair matched has no refreshed copy in the matched part. */
  lemma UnmatchedNotRefreshed(acc: seq<ScoredPair>, tracks: seq<Track>, boxes: seq<Box>, now: real, j: nat)
    requires RowsBelow(acc, |boxes|) && ColsBelow(acc, |tracks|)
    requires DistinctTrackIds(tracks)
    requires j < |tracks| && j !in Cols(acc)
    ensures tracks[j].id !in IdsOf(Matched(acc, tracks, boxes, now))
  {
    var m := Matched(acc, tracks, boxes, now);
    MatchedAt(acc, tracks, boxes, now);
    forall k | 0 <= k < |m|
      ensures m[k].id != tracks[j].id
    {
      assert acc[k] in acc;
      assert acc[k].col != j;
    }
  }

  /** Spawned ids start at `nextId`, so no old track's id is among them. */
  lemma OldIdNotSpawned(boxes: seq<Box>, rows: set<nat>, nextId: nat, now: real, id: nat)
    requires id < nextId
    ensures id !in IdsOf(Spawned(boxes, rows, |boxes|, nextId, now))
  {
    var sp := Spawned(boxes, rows, |boxes|, nextId, now);
    SpawnedFresh(boxes, rows, |boxes|, nextId, now);
    forall k | 0 <= k < |sp|
      ensures sp[k].id != id
    {
    }
  }

  /** An unmatched track's id is among the kept ones exactly when it is live. */
  lemma UnmatchedKept(tracks: seq<Track>, cols: set<nat>, now: real, maxAge: real, j: nat)
    requires DistinctTrackIds(tracks)
    requires j < |tracks| && j !in cols
    ensures tracks[j].id in IdsOf(Kept(tracks, cols, |tracks|, now, maxAge)) <==> Live(tracks[j], now, maxAge)
  {
    var kept := Kept(tracks, cols, |tracks|, now, maxAge);
    KeptMembers(tracks, cols, |tracks|, now, maxAge);
    if tracks[j].id in IdsOf(kept) {
      var t :| t in kept && t.id == tracks[j].id;
      var j' :| 0 <= j' < |tracks| && j' !in cols && Live(tracks[j'], now, maxAge) && tracks[j'] == t;
      if j' != j {
        if j' < j {
          assert false;
        } else {
          assert false;
        }
      }
    }
    if Live(tracks[j], now, maxAge) {
      assert tracks[j] in kept;
    }
  }

  lemma IdsOfConcat(a: seq<Track>, b: seq<Track>)
    ensures IdsOf(a + b) == IdsOf(a) + IdsOf(b)
  {
    forall id | id in IdsOf(a + b)
      ensures id in IdsOf(a) || id in IdsOf(b)
    {
      var t :| t in a + b && t.id == id;
    }
    forall id | id in IdsOf(a) + IdsOf(b)
      ensures id in IdsOf(a + b)
    {
      if id in IdsOf(a) {
        var t :| t in a && t.id == id;
        assert t in a + b;
      } else {
        var t :| t in b && t.id == id;
        assert t in a + b;
      }
    }
  }

  lemma UnmatchedTrackSurvives(acc: seq<ScoredPair>, tracks: seq<Track>, boxes: seq<Box>, now: real, nextId: nat,
                               maxAge: real, j: nat)
    requires RowsBelow(acc, |boxes|) && ColsBelow(acc, |tracks|)
    requires DistinctTrackIds(tracks)
    requires forall t :: t in tracks ==> t.id < nextId
    requires j < |tracks| && j !in Cols(acc)
    ensures var items := Matched(acc, tracks, boxes, now) + Spawned(boxes, Rows(acc), |boxes|, nextId, now)
                         + Kept(tracks, Cols(acc), |tracks|, now, maxAge);
      tracks[j].id in IdsOf(items) <==> Live(tracks[j], now, maxAge)
  {
    var m := Matched(acc, tracks, boxes, now);
    var sp := Spawned(boxes, Rows(acc), |boxes|, nextId, now);
    var kept := Kept(tracks, Cols(acc), |tracks|, now, maxAge);
    assert tracks[j] in tracks;
    UnmatchedNotRefreshed(acc, tracks, boxes, now, j);
    OldIdNotSpawned(boxes, Rows(acc), nextId, now, tracks[j].id);
    UnmatchedKept(tracks, Cols(acc), now, maxAge, j);
    IdsOfConcat(m, sp);
    IdsOfConcat(m + sp, kept);
  }

  /**
   * `counted_ids` holds no id twice and only ids of tracks the frame drops;
   * a dropped id is no longer in the list.
   */
  lemma AssembleCountedDropped(acc: seq<ScoredPair>, tracks: seq<Track>, boxes: seq<Box>, now: real, nextId: nat,
                               maxAge: real, minLiveTime: real)
    requires RowsBelow(acc, |boxes|) && ColsBelow(acc, |tracks|)
    requires DistinctTrackIds(tracks)
    requires forall t :: t in tracks ==> t.id < nextId
    ensures var out := Assemble(acc, tracks, boxes, now, nextId, maxAge, minLiveTime);
      var dropped := DroppedIds(tracks, Cols(acc), now, maxAge);
      NoDuplicates(out.counted)
      && (forall id :: id in out.counted ==> id in dropped)
      && (forall id :: id in dropped ==> id !in IdsOf(out.items) && id in IdsOf(tracks))
  {
    var out := Assemble(acc, tracks, boxes, now, nextId, maxAge, minLiveTime);
    var cols := Cols(acc);
    CountedDistinct(tracks, cols, |tracks|, now, maxAge, minLiveTime);
    CountedMembers(tracks, cols, |tracks|, now, maxAge, minLiveTime);
    forall id | id in DroppedIds(tracks, cols, now, maxAge)
      ensures id !in IdsOf(out.items) && id in IdsOf(tracks)
    {
      var j :| 0 <= j < |tracks| && j !in cols && !Live(tracks[j], now, maxAge) && tracks[j].id == id;
      AssembleUnmatchedTrack(acc, tracks, boxes, now, nextId, maxAge, minLiveTime, j);
      assert tracks[j] in tracks;
    }
  }

  /** Every position below the number of unmatched detections is the slot of one of them. */
  lemma {:induction false} UnmatchedReached(rows: set<nat>, n: nat, k: nat)
    requires k < Unmatched(rows, n)
    ensures exists i :: 0 <= i < n && i !in rows && Unmatched(rows, i) == k
    decreases n
  {
    if k < Unmatched(rows, n - 1) {
      UnmatchedReached(rows, n - 1, k);
    } else {
      assert n - 1 !in rows && Unmatched(rows, n - 1) == k;
    }
  }

  /** Every track of the new list is an old one, or its id was returned for one of the frame's boxes. */
  lemma AssembleItemsReported(acc: seq<ScoredPair>, tracks: seq<Track>, boxes: seq<Box>, now: real, nextId: nat,
                              maxAge: real, minLiveTime: real)
    requires RowsBelow(acc, |boxes|) && ColsBelow(acc, |tracks|)
    ensures var out := Assemble(acc, tracks, boxes, now, nextId, maxAge, minLiveTime);
      |out.ids| == |boxes|
      && forall t :: t in out.items ==>
        (t.id in IdsOf(tracks) || exists i :: 0 <= i < |boxes| && out.ids[i] == Some(t.id))
  {
    var out := Assemble(acc, tracks, boxes, now, nextId, maxAge, minLiveTime);
    var rows, cols := Rows(acc), Cols(acc);
    var m := Matched(acc, tracks, boxes, now);
    var sp := Spawned(boxes, rows, |boxes|, nextId, now);
    var kept := Kept(tracks, cols, |tracks|, now, maxAge);
    MatchedFromTracks(acc, tracks, boxes, now);
    SpawnedReported(MatchIds(acc, |boxes|, tracks), boxes, rows, nextId, now);
    KeptFromTracks(tracks, cols, now, maxAge);
    forall t: Track | t in m + sp + kept
      ensures t.id in IdsOf(tracks) || exists i :: 0 <= i < |boxes| && out.ids[i] == Some(t.id)
    {
      assert t in m || t in sp || t in kept;
    }
  }

  /**
   * What the caller of `update` may rely on: one id per box, each the id of
   * a live track; every live track is an old one or was reported now; and
   * every counted id belonged to an old track that is gone.
   */
  lemma StepIdsAccounted(tracks: seq<Track>, boxes: seq<Box>, now: real, nextId: nat,
                         maxAge: real, minLiveTime: real, threshold: real)
    requires DistinctTrackIds(tracks)
    requires forall t :: t in tracks ==> t.id < nextId
    ensures var out := Step(tracks, boxes, now, nextId, maxAge, minLiveTime, threshold);
      |out.ids| == |boxes|
      && (forall i :: 0 <= i < |boxes| ==> out.ids[i].Some? && out.ids[i].value in IdsOf(out.items))
      && (forall id :: id in IdsOf(out.items) ==>
            (id in IdsOf(tracks) || exists i :: 0 <= i < |boxes| && out.ids[i] == Some(id)))
      && (forall id :: id in out.counted ==> id in IdsOf(tracks) && id !in IdsOf(out.items))
  {
    var out := Step(tracks, boxes, now, nextId, maxAge, minLiveTime, threshold);
    var acc := Accepted(boxes, tracks, now, maxAge, threshold);
    AssembleIdsCoverBoxes(acc, tracks, boxes, now, nextId, maxAge, minLiveTime);
    AssembleItemsReported(acc, tracks, boxes, now, nextId, maxAge, minLiveTime);
    AssembleCountedDropped(acc, tracks, boxes, now, nextId, maxAge, minLiveTime);
    forall i | 0 <= i < |boxes|
      ensures out.ids[i].Some? && out.ids[i].value in IdsOf(out.items)
    {
      var k :| 0 <= k < |out.items| && out.items[k].id == out.ids[i].value;
      assert out.items[k] in out.items;
    }
    forall id | id in IdsOf(out.items)
      ensures id in IdsOf(tracks) || exists i :: 0 <= i < |boxes| && out.ids[i] == Some(id)
    {
      var t :| t in out.items && t.id == id;
    }
  }

  /** The ids of the listed tracks, in order. */
  function TrackIds(ts: seq<Track>): (ids: seq<nat>)
    ensures |ids| == |ts|
    ensures forall k :: 0 <= k < |ts| ==> ids[k] == ts[k].id
  {
    if ts == [] then [] else [ts[0].id] + TrackIds(ts[1..])
  }

  // ---------------------------------------------------------------- the tracker

  /**
   * The inner loop for detection `i`: appends, in track order, the tuple of
   * every track strictly below the limit. A pair with a zero mean size gives
   * inf or nan on the numpy rows main.py passes, fails the test and is
   * skipped.
   */
  method CollectRow(box: Box, i: nat, tracks: seq<Track>, limit: real, overlap: seq<ScoredPair>) returns (res: seq<ScoredPair>)
    ensures res == overlap + RowCandidates(ScoreRow(box, tracks), i, |tracks|, limit)
  {
    ghost var row := ScoreRow(box, tracks);
    res := overlap;
    var j := 0;
    while j < |tracks|
      invariant 0 <= j <= |tracks|
      invariant res == overlap + RowCandidates(row, i, j, limit)
    {
      if AvgSize(box, tracks[j].box) != 0.0 {
        var dis := DisKey(box, tracks[j].box);
        if dis < limit {
          res := res + [ScoredPair(dis, i, j)];
        }
      }
      assert row[j] == Score(box, tracks[j].box);
      j := j + 1;
    }
  }

  /** The nested loop that builds `overlap_list`: every pair strictly below the threshold, in loop order. */
  method CollectCandidates(boxes: seq<Box>, tracks: seq<Track>, threshold: real) returns (overlap: seq<ScoredPair>)
    ensures overlap == Overlaps(boxes, tracks, threshold)
  {
    ghost var table := ScoreTable(boxes, tracks);
    var limit := SignedSquare(threshold);
    overlap := [];
    var i := 0;
    while i < |boxes|
      invariant 0 <= i <= |boxes|
      invariant overlap == Candidates(table, i, limit)
    {
      overlap := CollectRow(boxes[i], i, tracks, limit, overlap);
      assert table[i] == ScoreRow(boxes[i], tracks);
      i := i + 1;
    }
  }

  /**
   * The tracker's invariant: live ids are distinct and were issued; a
   * dropped id never comes back; `total_sequence` counts the reported
   * visits, and no visit is reported twice.
   */
  ghost predicate TrackerInvariant(items: seq<Track>, nextId: nat, totalSequence: nat, retired: set<nat>, countedLog: seq<nat>) {
    DistinctTrackIds(items)
    && (forall t :: t in items ==> t.id < nextId)
    && (forall id :: id in retired ==> id < nextId)
    && IdsOf(items) !! retired
    && totalSequence == |countedLog|
    && NoDuplicates(countedLog)
    && (forall id :: id in countedLog ==> id in retired)
  }

  /** One frame preserves the tracker's invariant. */
  lemma StepKeepsInvariant(tracks: seq<Track>, boxes: seq<Box>, now: real, nextId: nat,
                           maxAge: real, minLiveTime: real, threshold: real,
                           totalSequence: nat, retired: set<nat>, countedLog: seq<nat>)
    requires TrackerInvariant(tracks, nextId, totalSequence, retired, countedLog)
    ensures var out := Step(tracks, boxes, now, nextId, maxAge, minLiveTime, threshold);
      var acc := Accepted(boxes, tracks, now, maxAge, threshold);
      TrackerInvariant(out.items, nextId + out.spawned, totalSequence + |out.counted|,
                       retired + DroppedIds(tracks, Cols(acc), now, maxAge), countedLog + out.counted)
  {
    var out := Step(tracks, boxes, now, nextId, maxAge, minLiveTime, threshold);
    var acc := Accepted(boxes, tracks, now, maxAge, threshold);
    var dropped := DroppedIds(tracks, Cols(acc), now, maxAge);
    AcceptedSound(boxes, tracks, now, maxAge, threshold);
    AssembleDistinct(acc, tracks, boxes, now, nextId, maxAge, minLiveTime);
    AssembleRefreshedOrSpawned(acc, tracks, boxes, now, nextId, maxAge, minLiveTime);
    AssembleCountedDropped(acc, tracks, boxes, now, nextId, maxAge, minLiveTime);
    forall id | id in IdsOf(out.items)
      ensures id !in retired + dropped
    {
      var t :| t in out.items && t.id == id;
      if id in IdsOf(tracks) {
        var u :| u in tracks && u.id == id;
      }
    }
    forall id | id in retired + dropped
      ensures id < nextId + out.spawned
    {
      if id in dropped {
        var u :| u in tracks && u.id == id;
      }
    }
    var log := countedLog + out.counted;
    forall x, y | 0 <= x < y < |log|
      ensures log[x] != log[y]
    {
      if y >= |countedLog| && x < |countedLog| {
        assert log[y] == out.counted[y - |countedLog|];
        assert log[y] in out.counted;
        assert log[x] in countedLog;
        var u :| u in tracks && u.id == log[y];
      } else if x >= |countedLog| {
        assert log[x] == out.counted[x - |countedLog|];
        assert log[y] == out.counted[y - |countedLog|];
      }
    }
  }

  /** What `update` returns: `ret_ids` and `counted_ids`. */
  datatype UpdateResult = UpdateResult(ids: seq<Option<nat>>, counted: seq<nat>)

  class SimpleTracker {
    /** `tracked_item`. */
    var items: seq<Track>
    /** The next fresh id. */
    var nextId: nat
    /** `total_sequence`: how many visits have been counted. */
    var totalSequence: nat
    const maxAge: real
    const minLiveTime: real
    const disThreshold: real
    /** Every id the tracker has dropped. */
    ghost var retired: set<nat>
    /** Every id ever reported in `counted_ids`, in order. */
    ghost var countedLog: seq<nat>

    /**
     * Live ids are distinct and were issued; a dropped id never comes back;
     * `total_sequence` counts the reported visits, and no visit is reported twice.
     */
    ghost predicate Valid()
      reads this
    {
      TrackerInvariant(items, nextId, totalSequence, retired, countedLog)
    }

    constructor (maxAge: real, minLiveTime: real, disThreshold: real)
      ensures Valid()
      ensures items == [] && nextId == 0 && totalSequence == 0
      ensures this.maxAge == maxAge && this.minLiveTime == minLiveTime && this.disThreshold == disThreshold
    {
      items := [];
      nextId := 0;
      totalSequence := 0;
      this.maxAge := maxAge;
      this.minLiveTime := minLiveTime;
      this.disThreshold := disThreshold;
      retired := {};
      countedLog := [];
    }

    /** `alive_ids()`: the ids of the live tracks, which are pairwise distinct. */
    function AliveIds(): (ids: seq<nat>)
      reads this
      ensures |ids| == |items|
      ensures forall k :: 0 <= k < |ids| ==> ids[k] == items[k].id
      ensures Valid() ==> NoDuplicates(ids)
    {
      TrackIds(items)
    }

    /** `total_sequence_count()`: the number of visits reported so far. */
    function TotalSequenceCount(): (n: nat)
      reads this
      ensures Valid() ==> n == |countedLog|
    {
      totalSequence
    }

    /** `update(list_boxes)`. */
    method Update(boxes: seq<Box>, now: real) returns (res: UpdateResult)
      requires Valid()
      modifies this
      ensures Valid()
      ensures
        var out := Step(old(items), boxes, now, old(nextId), maxAge, minLiveTime, disThreshold);
        var acc := Accepted(boxes, old(items), now, maxAge, disThreshold);
        res == UpdateResult(out.ids, out.counted)
        && items == out.items
        && nextId == old(nextId) + out.spawned
        && totalSequence == old(totalSequence) + |out.counted|
        && countedLog == old(countedLog) + out.counted
        && retired == old(retired) + DroppedIds(old(items), Cols(acc), now, maxAge)
    {
      var cands := CollectCandidates(boxes, items, disThreshold);
      var sorted := Sort(cands);
      SortedCandidatesBelow(boxes, items, disThreshold);
      var listMatch, listTrackedMatch, newTrackList, retIds := MatchGreedily(sorted, items, boxes, now, maxAge);
      ghost var acc := Accepted(boxes, items, now, maxAge, disThreshold);
      var freshId;
      newTrackList, retIds, freshId := SpawnTracks(boxes, listMatch, Rows(acc), nextId, now, newTrackList, retIds);
      var counted;
      newTrackList, counted := KeepOrRetire(items, listTrackedMatch, Cols(acc), now, maxAge, minLiveTime, newTrackList);
      totalSequence := totalSequence + |counted|;

      StepKeepsInvariant(items, boxes, now, nextId, maxAge, minLiveTime, disThreshold, totalSequence - |counted|, retired, countedLog);
      retired := retired + DroppedIds(items, Cols(acc), now, maxAge);
      countedLog := countedLog + counted;
      items := newTrackList;
      nextId := freshId;
      res := UpdateResult(retIds, counted);
    }
  }

  /**
   * The greedy pass over the sorted candidates: `list_match`,
   * `list_tracked_match`, the matched part of `new_track_list` and
   * `ret_ids`, as the specification Greedy describes them.
   */
  method MatchGreedily(sorted: seq<ScoredPair>, tracks: seq<Track>, boxes: seq<Box>, now: real, maxAge: real)
    returns (listMatch: seq<nat>, listTrackedMatch: seq<nat>, newTrackList: seq<Track>, retIds: seq<Option<nat>>)
    requires RowsBelow(sorted, |boxes|) && ColsBelow(sorted, |tracks|)
    ensures var acc := Greedy(sorted, tracks, now, maxAge);
      (forall x :: x in listMatch <==> x in Rows(acc))
      && (forall x :: x in listTrackedMatch <==> x in Cols(acc))
      && newTrackList == Matched(acc, tracks, boxes, now)
      && retIds == MatchIds(acc, |boxes|, tracks)
  {
    listMatch, listTrackedMatch, newTrackList := [], [], [];
    retIds := seq(|boxes|, _ => None);
    ghost var acc: seq<ScoredPair> := [];
    var k := 0;
    while k < |sorted|
      invariant 0 <= k <= |sorted|
      invariant acc == Greedy(sorted[..k], tracks, now, maxAge)
      invariant forall x :: x in listMatch <==> x in Rows(acc)
      invariant forall x :: x in listTrackedMatch <==> x in Cols(acc)
      invariant newTrackList == Matched(acc, tracks, boxes, now)
      invariant retIds == MatchIds(acc, |boxes|, tracks)
    {
      var p := sorted[k];
      assert sorted[..k + 1] == sorted[..k] + [p];
      if p.row !in listMatch && p.col !in listTrackedMatch {
        var item := tracks[p.col];
        if now - item.lastTime < maxAge {
          listMatch := listMatch + [p.row];
          listTrackedMatch := listTrackedMatch + [p.col];
          newTrackList := newTrackList + [item.(box := boxes[p.row], lastTime := now)];
          retIds := retIds[p.row := Some(item.id)];
          acc := acc + [p];
        }
      }
      k := k + 1;
    }
    assert sorted[..|sorted|] == sorted;
  }

  /**
   * The spawning loop: each detection missing from `list_match` gets a new
   * track with the next fresh id, first and last seen now.
   */
  method SpawnTracks(boxes: seq<Box>, listMatch: seq<nat>, ghost rows: set<nat>, nextId: nat, now: real,
                     matched: seq<Track>, ids: seq<Option<nat>>)
    returns (newTrackList: seq<Track>, retIds: seq<Option<nat>>, freshId: nat)
    requires forall x :: x in listMatch <==> x in rows
    requires |ids| == |boxes|
    ensures newTrackList == matched + Spawned(boxes, rows, |boxes|, nextId, now)
    ensures retIds == AssignIds(ids, rows, |boxes|, nextId)
    ensures freshId == nextId + Unmatched(rows, |boxes|)
  {
    newTrackList, retIds, freshId := matched, ids, nextId;
    var i := 0;
    while i < |boxes|
      invariant 0 <= i <= |boxes|
      invariant freshId == nextId + Unmatched(rows, i)
      invariant newTrackList == matched + Spawned(boxes, rows, i, nextId, now)
      invariant retIds == AssignIds(ids, rows, i, nextId)
    {
      if i !in listMatch {
        newTrackList := newTrackList + [Track(freshId, boxes[i], now, now)];
        retIds := retIds[i := Some(freshId)];
        freshId := freshId + 1;
      }
      i := i + 1;
    }
  }

  /**
   * The loop over the old tracks missing from `list_tracked_match`: live
   * ones are kept in order, expired ones that lived long enough are counted.
   */
  method KeepOrRetire(tracks: seq<Track>, listTrackedMatch: seq<nat>, ghost cols: set<nat>,
                      now: real, maxAge: real, minLiveTime: real, start: seq<Track>)
    returns (newTrackList: seq<Track>, counted: seq<nat>)
    requires forall x :: x in listTrackedMatch <==> x in cols
    ensures newTrackList == start + Kept(tracks, cols, |tracks|, now, maxAge)
    ensures counted == Counted(tracks, cols, |tracks|, now, maxAge, minLiveTime)
  {
    newTrackList, counted := start, [];
    var j := 0;
    while j < |tracks|
      invariant 0 <= j <= |tracks|
      invariant newTrackList == start + Kept(tracks, cols, j, now, maxAge)
      invariant counted == Counted(tracks, cols, j, now, maxAge, minLiveTime)
    {
      if j !in listTrackedMatch {
        var item := tracks[j];
        if now - item.lastTime < maxAge {
          newTrackList := newTrackList + [item];
        } else if item.lastTime - item.firstTime > minLiveTime {
          counted := counted + [item.id];
        }
      }
      j := j + 1;
    }
  }

  /**
   * Expiry and counting: a track first seen at 0 s and last seen at 5 s,
   * with `max_age` 2 s and `MIN_LIVE_TIME` 3 s, is reported in
   * `counted_ids` by a frame at 7 s or later and kept, uncounted, by any
   * earlier frame.
   */
  lemma ExpiryExample(id: nat, box: Box, now: real, nextId: nat, threshold: real)
    requires 5.0 <= now
    requires id < nextId
    ensures var out := Step([Track(id, box, 0.0, 5.0)], [], now, nextId, 2.0, 3.0, threshold);
      out.counted == (if now >= 7.0 then [id] else [])
      && out.items == (if now >= 7.0 then [] else [Track(id, box, 0.0, 5.0)])
  {
    var tracks := [Track(id, box, 0.0, 5.0)];
    var acc := Accepted([], tracks, now, 2.0, threshold);
    assert Overlaps([], tracks, threshold) == [];
    assert acc == [];
    assert Rows(acc) == {} && Cols(acc) == {};
    assert Matched(acc, tracks, [], now) == [];
    assert Spawned([], {}, 0, nextId, now) == [];
    assert Kept(tracks, {}, 0, now, 2.0) == [];
    assert Counted(tracks, {}, 0, now, 2.0, 3.0) == [];
    assert Kept(tracks, {}, 1, now, 2.0) == (if now >= 7.0 then [] else tracks);
    assert Counted(tracks, {}, 1, now, 2.0, 3.0) == (if now >= 7.0 && 5.0 > 3.0 then [id] else []);
  }

  /**
   * A live track and a new face whose mean size is zero, such as two faces
   * that both truncate to `(0, 0, 0, 0)`: `box_dis` is inf or nan on numpy
   * rows, so the pair is no candidate. The face gets a fresh id and the old
   * track is kept unmatched, neither refreshed nor counted.
   */
  lemma ZeroSizeNotMatched(id: nat, b: Box, c: Box, nextId: nat, threshold: real)
    requires id < nextId
    requires AvgSize(b, c) == 0.0
    ensures var out := Step([Track(id, c, 0.0, 1.0)], [b], 1.5, nextId, 2.0, 3.0, threshold);
      out.ids == [Some(nextId)] && out.counted == [] && out.spawned == 1
      && out.items == [Track(nextId, b, 1.5, 1.5), Track(id, c, 0.0, 1.0)]
  {
    var tracks := [Track(id, c, 0.0, 1.0)];
    var table := ScoreTable([b], tracks);
    assert table[0][0] == None;
    assert RowCandidates(table[0], 0, |table[0]|, SignedSquare(threshold)) == [];
    assert Candidates(table, 1, SignedSquare(threshold)) == [];
    assert Overlaps([b], tracks, threshold) == [];
    var acc := Accepted([b], tracks, 1.5, 2.0, threshold);
    assert acc == [];
    assert Rows(acc) == {} && Cols(acc) == {};
    assert Matched(acc, tracks, [b], 1.5) == [];
    assert Unmatched({}, 1) == 1;
    assert Spawned([b], {}, 1, nextId, 1.5) == [Track(nextId, b, 1.5, 1.5)];
    assert Kept(tracks, {}, 1, 1.5, 2.0) == tracks;
    assert Counted(tracks, {}, 1, 1.5, 2.0, 3.0) == [];
    assert MatchIds(acc, 1, tracks) == [None];
    assert AssignIds([None], {}, 1, nextId) == [Some(nextId)];
  }

  /**
   * Noise rejection: a track seen only from 0 s to 1 s, with
   * `MIN_LIVE_TIME` 3 s, is never reported; it is dropped once `max_age`
   * 2 s has passed since its last sighting.
   */
  lemma NoiseExample(id: nat, box: Box, now: real, nextId: nat, threshold: real)
    requires 1.0 <= now
    requires id < nextId
    ensures var out := Step([Track(id, box, 0.0, 1.0)], [], now, nextId, 2.0, 3.0, threshold);
      out.counted == []
      && out.items == (if now >= 3.0 then [] else [Track(id, box, 0.0, 1.0)])
  {
    var tracks := [Track(id, box, 0.0, 1.0)];
    var acc := Accepted([], tracks, now, 2.0, threshold);
    assert Overlaps([], tracks, threshold) == [];
    assert acc == [];
    assert Rows(acc) == {} && Cols(acc) == {};
    assert Matched(acc, tracks, [], now) == [];
    assert Spawned([], {}, 0, nextId, now) == [];
    assert Kept(tracks, {}, 0, now, 2.0) == [];
    assert Counted(tracks, {}, 0, now, 2.0, 3.0) == [];
    assert Kept(tracks, {}, 1, now, 2.0) == (if now >= 3.0 then [] else tracks);
    assert Counted(tracks, {}, 1, now, 2.0, 3.0) == (if now >= 3.0 && 1.0 > 3.0 then [id] else []);
  }
}
