/**
 * The post-processing loop of `HumanDetector._run_function` in
 * human_detection.py. The detector's raw output (scores in descending
 * order, class ids, boxes as fractions of the image) becomes three aligned
 * lists: the kept scores, class names and pixel boxes. Scanning stops at the
 * first score below `THRESHOLD`, detections of other classes are skipped,
 * and so is every box that overlaps an already kept one above
 * `OVERLAP_THRESHOLD`.
 */
module HumanDetection {
  import opened Wrappers
  import UM = UtilsMain

  /** `KEEP_CLASSES`. */
  const KeepClasses: set<string> := {"person"}

  /** A box as the detector gives it: `(ymin, xmin, ymax, xmax)` as fractions of the image size. */
  datatype NormBox = NormBox(ymin: real, xmin: real, ymax: real, xmax: real)

  /** The squeezed `scores`, `classes` and `boxes` tensors of one frame. */
  datatype RawOutput = RawOutput(scores: seq<real>, classes: seq<int>, boxes: seq<NormBox>)

  /** The detector returns one class and one box per score. */
  predicate Aligned(raw: RawOutput) {
    |raw.classes| == |raw.scores| && |raw.boxes| == |raw.scores|
  }

  /** What the loop reads besides the frame: the category index, `THRESHOLD` and `OVERLAP_THRESHOLD`. */
  datatype Settings = Settings(index: map<int, UM.Category>, threshold: real, overlap: real)

  /** The box in pixels, as `(left, top, right, bottom)`, for an image `width` by `height`. */
  function PixelBox(nb: NormBox, width: nat, height: nat): UM.Box {
    UM.Box(nb.xmin * width as real, nb.ymin * height as real, nb.xmax * width as real, nb.ymax * height as real)
  }

  /**
   * The exception the loop can raise: `KeyError` for a class id missing from
   * the index. The boxes are numpy scalars, so an `iou` with a zero union is
   * nan rather than a `ZeroDivisionError` (UM.AnyOverlapNumpy).
   */
  datatype Failure = UnknownClass

  /** What the loop hands on: the three output lists, or the exception that ended it. */
  datatype Outcome = Failed(failure: Failure) | Detections(scores: seq<real>, classes: seq<string>, boxes: seq<UM.Box>)

  /**
   * The loop's state after some iterations: whether it has met a score
   * below the threshold, the indices it kept (for the proofs) and the three
   * output lists; or the exception it raised.
   */
  datatype Scan =
    | Scanning(stopped: bool, picked: seq<nat>, scores: seq<real>, classes: seq<string>, boxes: seq<UM.Box>)
    | Raised(failure: Failure)

  /** Iteration `i` of the loop. */
  function ScanStep(s: Scan, raw: RawOutput, cfg: Settings, width: nat, height: nat, i: nat): Scan
    requires Aligned(raw) && i < |raw.scores|
  {
    if s.Raised? || s.stopped then s
    else if raw.scores[i] < cfg.threshold then s.(stopped := true)
    else if raw.classes[i] !in cfg.index then Raised(UnknownClass)
    else
      var name := cfg.index[raw.classes[i]].name;
      if name !in KeepClasses then s
      else
        var b := PixelBox(raw.boxes[i], width, height);
        if UM.AnyOverlapNumpy(b, s.boxes, cfg.overlap) then s
        else Scanning(false, s.picked + [i], s.scores + [raw.scores[i]], s.classes + [name], s.boxes + [b])
  }

  /** The loop after the first `n` iterations. */
  function ScanUpTo(raw: RawOutput, cfg: Settings, width: nat, height: nat, n: nat): Scan
    requires Aligned(raw) && n <= |raw.scores|
  {
    if n == 0 then Scanning(false, [], [], [], [])
    else ScanStep(ScanUpTo(raw, cfg, width, height, n - 1), raw, cfg, width, height, n - 1)
  }

  /** What the loop hands on in the end state `s`. */
  function Emitted(s: Scan): Outcome {
    if s.Raised? then Failed(s.failure) else Detections(s.scores, s.classes, s.boxes)
  }

  /** Once the loop has stopped or raised, later iterations change nothing. */
  lemma {:induction false} Settled(raw: RawOutput, cfg: Settings, width: nat, height: nat, i: nat, n: nat)
    requires Aligned(raw) && i <= n <= |raw.scores|
    requires ScanUpTo(raw, cfg, width, height, i).Raised? || ScanUpTo(raw, cfg, width, height, i).stopped
    ensures ScanUpTo(raw, cfg, width, height, n) == ScanUpTo(raw, cfg, width, height, i)
    decreases n
  {
    if n > i {
      Settled(raw, cfg, width, height, i, n - 1);
    }
  }

  /**
   * The post-processing loop: the outcome is that of all iterations, the
   * `break` at a low score and an exception ending the loop early without
   * changing what later iterations would have left.
   */
  method PostProcess(raw: RawOutput, cfg: Settings, width: nat, height: nat) returns (out: Outcome)
    requires Aligned(raw)
    ensures out == Emitted(ScanUpTo(raw, cfg, width, height, |raw.scores|))
  {
    var scores: seq<real>, classes: seq<string>, boxes: seq<UM.Box> := [], [], [];
    for i := 0 to |raw.scores|
      invariant ScanUpTo(raw, cfg, width, height, i).Scanning?
      invariant !ScanUpTo(raw, cfg, width, height, i).stopped
      invariant ScanUpTo(raw, cfg, width, height, i).scores == scores
      invariant ScanUpTo(raw, cfg, width, height, i).classes == classes
      invariant ScanUpTo(raw, cfg, width, height, i).boxes == boxes
    {
      if raw.scores[i] < cfg.threshold {
        Settled(raw, cfg, width, height, i + 1, |raw.scores|);
        break;
      }
      if raw.classes[i] !in cfg.index {
        Settled(raw, cfg, width, height, i + 1, |raw.scores|);
        return Failed(UnknownClass);
      }
      var name := cfg.index[raw.classes[i]].name;
      if name !in KeepClasses {
        continue;
      }
      var b := PixelBox(raw.boxes[i], width, height);
      if UM.AnyOverlapNumpy(b, boxes, cfg.overlap) {
        continue;
      }
      scores := scores + [raw.scores[i]];
      classes := classes + [name];
      boxes := boxes + [b];
    }
    out := Detections(scores, classes, boxes);
  }

  // ---------------------------------------------------------------- properties

  /** The index of the first score below `threshold`, or the number of scores. */
  function StopAt(scores: seq<real>, threshold: real): (c: nat)
    ensures c <= |scores|
    ensures forall i :: 0 <= i < c ==> scores[i] >= threshold
    ensures c < |scores| ==> scores[c] < threshold
  {
    if scores == [] || scores[0] < threshold then 0 else 1 + StopAt(scores[1..], threshold)
  }

  /** Detection `i` kept as `(score, cls, box)`: a score at the threshold or above, a kept class, the box in pixels. */
  predicate KeptAs(raw: RawOutput, cfg: Settings, width: nat, height: nat, i: nat, score: real, cls: string, box: UM.Box)
    requires Aligned(raw) && i < |raw.scores|
  {
    score == raw.scores[i] && score >= cfg.threshold
    && raw.classes[i] in cfg.index && cls == cfg.index[raw.classes[i]].name && cls in KeepClasses
    && box == PixelBox(raw.boxes[i], width, height)
  }

  /**
   * The output lists are aligned and are, in order, the kept detections:
   * the indices kept ascend and lie before the first score below the
   * threshold.
   */
  ghost predicate Sound(raw: RawOutput, cfg: Settings, width: nat, height: nat, s: Scan)
    requires Aligned(raw) && s.Scanning?
  {
    |s.scores| == |s.picked| && |s.classes| == |s.picked| && |s.boxes| == |s.picked|
    && (forall k :: 0 <= k < |s.picked| ==>
          s.picked[k] < StopAt(raw.scores, cfg.threshold)
          && KeptAs(raw, cfg, width, height, s.picked[k], s.scores[k], s.classes[k], s.boxes[k]))
    && (forall k, k' :: 0 <= k < k' < |s.picked| ==> s.picked[k] < s.picked[k'])
  }

  /** No kept box overlaps an earlier kept box above `overlap`; an IoU with a zero union (nan) is no overlap. */
  ghost predicate Separated(boxes: seq<UM.Box>, overlap: real) {
    forall k, k' :: 0 <= k < k' < |boxes| ==> UM.Iou(boxes[k'], boxes[k]).None? || UM.Iou(boxes[k'], boxes[k]).value <= overlap
  }

  /**
   * Every detection before the stop and among the first `n` that was not
   * kept has a known class, and either that class is not kept or its box
   * overlaps a box kept before it above `overlap`.
   */
  ghost predicate Complete(raw: RawOutput, cfg: Settings, width: nat, height: nat, n: nat, s: Scan)
    requires Aligned(raw) && n <= |raw.scores| && s.Scanning? && |s.boxes| == |s.picked|
  {
    forall i :: 0 <= i < n && i < StopAt(raw.scores, cfg.threshold) && i !in s.picked ==>
      raw.classes[i] in cfg.index
      && (cfg.index[raw.classes[i]].name !in KeepClasses
          || exists k :: 0 <= k < |s.picked| && s.picked[k] < i
                         && UM.Iou(PixelBox(raw.boxes[i], width, height), s.boxes[k]).Some?
                         && UM.Iou(PixelBox(raw.boxes[i], width, height), s.boxes[k]).value > cfg.overlap)
  }

  /** The loop has stopped exactly when it has passed a score below the threshold. */
  lemma {:induction false} ScanStops(raw: RawOutput, cfg: Settings, width: nat, height: nat, n: nat)
    requires Aligned(raw) && n <= |raw.scores|
    ensures ScanUpTo(raw, cfg, width, height, n).Scanning? ==>
              (ScanUpTo(raw, cfg, width, height, n).stopped <==> StopAt(raw.scores, cfg.threshold) < n)
  {
    if n > 0 {
      ScanStops(raw, cfg, width, height, n - 1);
    }
  }

  /** The three lists stay aligned with the kept indices, which ascend and lie below `n`. */
  lemma {:induction false} ScanShape(raw: RawOutput, cfg: Settings, width: nat, height: nat, n: nat)
    requires Aligned(raw) && n <= |raw.scores|
    ensures ScanUpTo(raw, cfg, width, height, n).Scanning? ==>
              var s := ScanUpTo(raw, cfg, width, height, n);
              |s.scores| == |s.picked| && |s.classes| == |s.picked| && |s.boxes| == |s.picked|
              && (forall k :: 0 <= k < |s.picked| ==> s.picked[k] < n)
              && (forall k, k' :: 0 <= k < k' < |s.picked| ==> s.picked[k] < s.picked[k'])
  {
    if n > 0 {
      ScanShape(raw, cfg, width, height, n - 1);
    }
  }

  /** Every kept detection is one the loop should keep, in input order. */
  lemma {:induction false} ScanSound(raw: RawOutput, cfg: Settings, width: nat, height: nat, n: nat)
    requires Aligned(raw) && n <= |raw.scores|
    ensures ScanUpTo(raw, cfg, width, height, n).Scanning? ==> Sound(raw, cfg, width, height, ScanUpTo(raw, cfg, width, height, n))
  {
    ScanShape(raw, cfg, width, height, n);
    if n > 0 {
      ScanSound(raw, cfg, width, height, n - 1);
      ScanStops(raw, cfg, width, height, n - 1);
      var s := ScanUpTo(raw, cfg, width, height, n - 1);
      if s.Scanning? && !s.stopped && raw.scores[n - 1] >= cfg.threshold {
        assert StopAt(raw.scores, cfg.threshold) != n - 1;
      }
    }
  }

  /** Kept boxes never overlap an earlier kept box above `overlap`. */
  lemma {:induction false} ScanSeparated(raw: RawOutput, cfg: Settings, width: nat, height: nat, n: nat)
    requires Aligned(raw) && n <= |raw.scores|
    ensures ScanUpTo(raw, cfg, width, height, n).Scanning? ==> Separated(ScanUpTo(raw, cfg, width, height, n).boxes, cfg.overlap)
  {
    if n > 0 {
      ScanSeparated(raw, cfg, width, height, n - 1);
      var s := ScanUpTo(raw, cfg, width, height, n - 1);
      if s.Scanning? && !s.stopped && raw.scores[n - 1] >= cfg.threshold && raw.classes[n - 1] in cfg.index {
        var b := PixelBox(raw.boxes[n - 1], width, height);
        UM.AnyOverlapNumpyIff(b, s.boxes, cfg.overlap);
      }
    }
  }

  /** Every detection the loop passes over before the stop had a reason to be skipped. */
  lemma {:induction false} ScanComplete(raw: RawOutput, cfg: Settings, width: nat, height: nat, n: nat)
    requires Aligned(raw) && n <= |raw.scores|
    ensures ScanUpTo(raw, cfg, width, height, n).Scanning? ==>
              |ScanUpTo(raw, cfg, width, height, n).boxes| == |ScanUpTo(raw, cfg, width, height, n).picked|
              && Complete(raw, cfg, width, height, n, ScanUpTo(raw, cfg, width, height, n))
  {
    if n > 0 {
      ScanComplete(raw, cfg, width, height, n - 1);
      ScanShape(raw, cfg, width, height, n - 1);
      ScanStops(raw, cfg, width, height, n - 1);
      var s := ScanUpTo(raw, cfg, width, height, n - 1);
      var s' := ScanUpTo(raw, cfg, width, height, n);
      if s'.Scanning? {
        assert s.Scanning?;
        if !s.stopped && raw.scores[n - 1] >= cfg.threshold && cfg.index[raw.classes[n - 1]].name in KeepClasses {
          var b := PixelBox(raw.boxes[n - 1], width, height);
          UM.AnyOverlapNumpyIff(b, s.boxes, cfg.overlap);
        }
        forall i | 0 <= i < n && i < StopAt(raw.scores, cfg.threshold) && i !in s'.picked
          ensures raw.classes[i] in cfg.index
          ensures cfg.index[raw.classes[i]].name !in KeepClasses
                  || exists k :: 0 <= k < |s'.picked| && s'.picked[k] < i
                                 && UM.Iou(PixelBox(raw.boxes[i], width, height), s'.boxes[k]).Some?
                                 && UM.Iou(PixelBox(raw.boxes[i], width, height), s'.boxes[k]).value > cfg.overlap
        {
          if i < n - 1 {
            assert i !in s.picked;
            if cfg.index[raw.classes[i]].name in KeepClasses {
              var k :| 0 <= k < |s.picked| && s.picked[k] < i
                       && UM.Iou(PixelBox(raw.boxes[i], width, height), s.boxes[k]).Some?
                       && UM.Iou(PixelBox(raw.boxes[i], width, height), s.boxes[k]).value > cfg.overlap;
              assert s'.picked[k] == s.picked[k] && s'.boxes[k] == s.boxes[k];
            }
          } else {
            assert !s.stopped;
          }
        }
      }
    }
  }

  /** The loop raises `KeyError` only for a class id before the stop that the index lacks. */
  lemma {:induction false} ScanRaises(raw: RawOutput, cfg: Settings, width: nat, height: nat, n: nat)
    requires Aligned(raw) && n <= |raw.scores|
    ensures ScanUpTo(raw, cfg, width, height, n) == Raised(UnknownClass) ==>
              exists i :: 0 <= i < n && i < StopAt(raw.scores, cfg.threshold) && raw.classes[i] !in cfg.index
  {
    if n > 0 {
      ScanRaises(raw, cfg, width, height, n - 1);
      ScanStops(raw, cfg, width, height, n - 1);
      var s := ScanUpTo(raw, cfg, width, height, n - 1);
      if s.Scanning? && !s.stopped {
        assert StopAt(raw.scores, cfg.threshold) >= n - 1;
        if raw.scores[n - 1] >= cfg.threshold {
          assert StopAt(raw.scores, cfg.threshold) != n - 1;
        }
      }
    }
  }

  /**
   * What the post-processing hands on: when it does not raise, the kept
   * lists are aligned, kept in input order before the first low score,
   * of kept classes with pixel boxes, mutually separated, and every other
   * detection before the stop was skipped for its class or an overlap.
   */
  lemma PostProcessMeaning(raw: RawOutput, cfg: Settings, width: nat, height: nat)
    requires Aligned(raw)
    ensures ScanUpTo(raw, cfg, width, height, |raw.scores|).Scanning? ==>
              var s := ScanUpTo(raw, cfg, width, height, |raw.scores|);
              Sound(raw, cfg, width, height, s) && Separated(s.boxes, cfg.overlap) && Complete(raw, cfg, width, height, |raw.scores|, s)
  {
    ScanSound(raw, cfg, width, height, |raw.scores|);
    ScanSeparated(raw, cfg, width, height, |raw.scores|);
    ScanComplete(raw, cfg, width, height, |raw.scores|);
  }

  /**
   * Two confident person detections with the same zero-area box: their IoU
   * is 0 / 0, nan on the detector's numpy scalars, so the second box is not
   * suppressed and both are kept.
   */
  lemma ZeroAreaBoxesKept(cfg: Settings)
    requires 1 in cfg.index && cfg.index[1].name == "person"
    requires cfg.threshold <= 0.8
    ensures var nb := NormBox(0.5, 0.5, 0.5, 0.5);
            var b := UM.Box(50.0, 50.0, 50.0, 50.0);
            var raw := RawOutput([0.9, 0.8], [1, 1], [nb, nb]);
            UM.Iou(b, b).None?
            && ScanUpTo(raw, cfg, 100, 100, 2) == Scanning(false, [0, 1], [0.9, 0.8], ["person", "person"], [b, b])
  {
    var nb := NormBox(0.5, 0.5, 0.5, 0.5);
    var b := UM.Box(50.0, 50.0, 50.0, 50.0);
    var raw := RawOutput([0.9, 0.8], [1, 1], [nb, nb]);
    assert PixelBox(nb, 100, 100) == b;
    assert ScanUpTo(raw, cfg, 100, 100, 1) == Scanning(false, [0], [0.9], ["person"], [b]);
    assert !UM.AnyOverlapNumpy(b, [b], cfg.overlap);
  }
}
