/**
 * Geometry and label-map helpers of the video-analytics application:
 * intersection over union, the overlap search used by the person detector,
 * label-map validation and conversion, the category index, the random
 * five-digit id, the resize decision and the point distance.
 */
module UtilsMain {
  import opened Wrappers

  /** An axis-aligned box (left, top, right, bottom) in pixel coordinates. */
  datatype Box = Box(l: real, t: real, r: real, b: real)

  datatype Point = Point(x: real, y: real)

  function Max(a: real, b: real): real { if a >= b then a else b }
  function Min(a: real, b: real): real { if a <= b then a else b }

  /** A box whose right and bottom edges are not left of / above its left and top edges. */
  predicate WellFormed(x: Box) { x.l <= x.r && x.t <= x.b }

  function Area(x: Box): real { (x.b - x.t) * (x.r - x.l) }

  /** True when the clipped intersection rectangle is empty (`l > r or t > b`). */
  predicate Disjoint(a: Box, b: Box) {
    Max(a.l, b.l) > Min(a.r, b.r) || Max(a.t, b.t) > Min(a.b, b.b)
  }

  function IntersectionArea(a: Box, b: Box): real {
    (Min(a.r, b.r) - Max(a.l, b.l)) * (Min(a.b, b.b) - Max(a.t, b.t))
  }

  function UnionArea(a: Box, b: Box): real {
    Area(a) + Area(b) - IntersectionArea(a, b)
  }

  /**
   * Intersection over union. `None` stands for the ZeroDivisionError the
   * source raises when the boxes touch and the union area is zero.
   */
  function Iou(a: Box, b: Box): (r: Option<real>)
    ensures Disjoint(a, b) ==> r == Some(0.0)
    ensures r.None? <==> !Disjoint(a, b) && UnionArea(a, b) == 0.0
    ensures r.Some? && !Disjoint(a, b) ==> r.value * UnionArea(a, b) == IntersectionArea(a, b)
  {
    if Disjoint(a, b) then Some(0.0)
    else if UnionArea(a, b) == 0.0 then None
    else Some(IntersectionArea(a, b) / UnionArea(a, b))
  }

  lemma IouSymmetric(a: Box, b: Box)
    ensures Iou(a, b) == Iou(b, a)
  {
    assert IntersectionArea(a, b) == IntersectionArea(b, a);
  }

  lemma ProductMonotone(w: real, h: real, bigW: real, bigH: real)
    requires 0.0 <= w <= bigW && 0.0 <= h <= bigH
    ensures 0.0 <= w * h <= bigW * bigH
  {
    assert w * h <= bigW * h;
    assert bigW * h <= bigW * bigH;
  }

  lemma RatioAtMostOne(i: real, u: real)
    requires 0.0 <= i <= u && u > 0.0
    ensures 0.0 <= i / u <= 1.0
  {
    var q := i / u;
    assert q * u == i;
    assert (q - 1.0) * u == i - u;
  }

  /** The intersection of two overlapping well-formed boxes is no larger than either box. */
  lemma IntersectionWithin(a: Box, b: Box)
    requires WellFormed(a) && WellFormed(b) && !Disjoint(a, b)
    ensures 0.0 <= IntersectionArea(a, b) <= Area(a)
    ensures IntersectionArea(a, b) <= Area(b)
  {
    var w := Min(a.r, b.r) - Max(a.l, b.l);
    var h := Min(a.b, b.b) - Max(a.t, b.t);
    ProductMonotone(h, w, a.b - a.t, a.r - a.l);
    ProductMonotone(h, w, b.b - b.t, b.r - b.l);
  }

  /** For well-formed boxes the IoU is defined unless both boxes are empty, and it lies in [0, 1]. */
  lemma IouBounds(a: Box, b: Box)
    requires WellFormed(a) && WellFormed(b)
    requires Area(a) > 0.0 || Area(b) > 0.0
    ensures Iou(a, b).Some?
    ensures 0.0 <= Iou(a, b).value <= 1.0
  {
    if !Disjoint(a, b) {
      IntersectionWithin(a, b);
      var i := IntersectionArea(a, b);
      var u := UnionArea(a, b);
      assert u > 0.0;
      RatioAtMostOne(i, u);
    }
  }

  /**
   * `any_overlap`: scans the listed boxes in order and answers true at the
   * first one whose IoU with `box` is strictly above `threshold`; `None`
   * when an IoU on the way raises.
   */
  function AnyOverlap(box: Box, boxes: seq<Box>, threshold: real): (r: Option<bool>)
    ensures boxes == [] ==> r == Some(false)
  {
    if boxes == [] then Some(false)
    else match Iou(box, boxes[0])
      case None => None
      case Some(v) => if v > threshold then Some(true) else AnyOverlap(box, boxes[1..], threshold)
  }

  /** When every IoU is defined, any_overlap is true exactly when some listed box overlaps above the threshold. */
  lemma {:induction false} AnyOverlapIff(box: Box, boxes: seq<Box>, threshold: real)
    requires forall k :: 0 <= k < |boxes| ==> Iou(box, boxes[k]).Some?
    ensures AnyOverlap(box, boxes, threshold)
         == Some(exists k :: 0 <= k < |boxes| && Iou(box, boxes[k]).value > threshold)
  {
    if boxes != [] {
      assert Iou(box, boxes[0]).Some?;
      if Iou(box, boxes[0]).value <= threshold {
        forall k | 0 <= k < |boxes[1..]| ensures Iou(box, boxes[1..][k]).Some? {
          assert boxes[1..][k] == boxes[k + 1];
        }
        AnyOverlapIff(box, boxes[1..], threshold);
        if exists k :: 0 <= k < |boxes| && Iou(box, boxes[k]).value > threshold {
          var k :| 0 <= k < |boxes| && Iou(box, boxes[k]).value > threshold;
          assert k > 0;
          assert boxes[1..][k - 1] == boxes[k];
        }
        if exists k :: 0 <= k < |boxes[1..]| && Iou(box, boxes[1..][k]).value > threshold {
          var k :| 0 <= k < |boxes[1..]| && Iou(box, boxes[1..][k]).value > threshold;
          assert boxes[1..][k] == boxes[k + 1];
        }
      }
    }
  }

  /**
   * What each answer of any_overlap says about the listed boxes: false means
   * every IoU is defined and at most `threshold`, true that some defined IoU
   * is above it, `None` that some IoU raises.
   */
  lemma {:induction false} AnyOverlapWitness(box: Box, boxes: seq<Box>, threshold: real)
    ensures AnyOverlap(box, boxes, threshold) == Some(false) ==>
              forall k :: 0 <= k < |boxes| ==> Iou(box, boxes[k]).Some? && Iou(box, boxes[k]).value <= threshold
    ensures AnyOverlap(box, boxes, threshold) == Some(true) ==>
              exists k :: 0 <= k < |boxes| && Iou(box, boxes[k]).Some? && Iou(box, boxes[k]).value > threshold
    ensures AnyOverlap(box, boxes, threshold).None? ==> exists k :: 0 <= k < |boxes| && Iou(box, boxes[k]).None?
  {
    if boxes != [] && Iou(box, boxes[0]).Some? && Iou(box, boxes[0]).value <= threshold {
      AnyOverlapWitness(box, boxes[1..], threshold);
      forall k | 1 <= k < |boxes| ensures boxes[1..][k - 1] == boxes[k] { }
      if AnyOverlap(box, boxes, threshold) == Some(true) {
        var k :| 0 <= k < |boxes[1..]| && Iou(box, boxes[1..][k]).Some? && Iou(box, boxes[1..][k]).value > threshold;
        assert boxes[1..][k] == boxes[k + 1];
      }
      if AnyOverlap(box, boxes, threshold).None? {
        var k :| 0 <= k < |boxes[1..]| && Iou(box, boxes[1..][k]).None?;
        assert boxes[1..][k] == boxes[k + 1];
      }
    }
  }

  /**
   * A zero union only occurs together with a zero intersection: `iou`
   * then divides 0 by 0. On numpy scalars that is nan rather than an
   * infinity, so it is never above a threshold.
   */
  lemma ZeroUnionIsZeroOverZero(a: Box, b: Box)
    ensures Iou(a, b).None? ==> IntersectionArea(a, b) == 0.0
  {
    if Iou(a, b).None? {
      assert WellFormed(a) && WellFormed(b);
      IntersectionWithin(a, b);
      assert Area(b) == 0.0 by {
        assert Area(a) - IntersectionArea(a, b) >= 0.0;
      }
    }
  }

  /**
   * `any_overlap` on numpy scalars, as the person detector calls it: an
   * IoU whose union is zero is nan, `nan > threshold` is false, and the
   * scan goes on to the next box instead of raising.
   */
  function AnyOverlapNumpy(box: Box, boxes: seq<Box>, threshold: real): (r: bool)
    ensures boxes == [] ==> !r
  {
    if boxes == [] then false
    else match Iou(box, boxes[0])
      case None => AnyOverlapNumpy(box, boxes[1..], threshold)
      case Some(v) => if v > threshold then true else AnyOverlapNumpy(box, boxes[1..], threshold)
  }

  /** On numpy scalars any_overlap is true exactly when some listed box has a defined IoU above the threshold. */
  lemma {:induction false} AnyOverlapNumpyIff(box: Box, boxes: seq<Box>, threshold: real)
    ensures AnyOverlapNumpy(box, boxes, threshold)
        <==> exists k :: 0 <= k < |boxes| && Iou(box, boxes[k]).Some? && Iou(box, boxes[k]).value > threshold
  {
    if boxes != [] {
      AnyOverlapNumpyIff(box, boxes[1..], threshold);
      forall k | 1 <= k < |boxes| ensures boxes[1..][k - 1] == boxes[k] { }
      if exists k :: 0 <= k < |boxes[1..]| && Iou(box, boxes[1..][k]).Some? && Iou(box, boxes[1..][k]).value > threshold {
        var k :| 0 <= k < |boxes[1..]| && Iou(box, boxes[1..][k]).Some? && Iou(box, boxes[1..][k]).value > threshold;
        assert boxes[1..][k] == boxes[k + 1];
      }
    }
  }

  /** Where any_overlap on plain numbers answers without raising, the numpy answer is the same. */
  lemma {:induction false} AnyOverlapNumpyAgrees(box: Box, boxes: seq<Box>, threshold: real)
    ensures AnyOverlap(box, boxes, threshold).Some? ==> AnyOverlap(box, boxes, threshold) == Some(AnyOverlapNumpy(box, boxes, threshold))
  {
    if boxes != [] && Iou(box, boxes[0]).Some? && Iou(box, boxes[0]).value <= threshold {
      AnyOverlapNumpyAgrees(box, boxes[1..], threshold);
    }
  }

  /**
   * The square of `distance(p1, p2)`. The source takes the square root;
   * every use in this model compares squares instead.
   */
  function SquaredDistance(p: Point, q: Point): (d: real)
    ensures d >= 0.0
  {
    var dx, dy := p.x - q.x, p.y - q.y;
    SquareNonNegative(dx);
    SquareNonNegative(dy);
    dx * dx + dy * dy
  }

  lemma SquareNonNegative(x: real)
    ensures x * x >= 0.0
  {
    if x < 0.0 {
      assert x * x == (-x) * (-x);
    }
  }

  lemma SquaredDistanceSymmetric(p: Point, q: Point)
    ensures SquaredDistance(p, q) == SquaredDistance(q, p)
  {
    assert (p.x - q.x) * (p.x - q.x) == (q.x - p.x) * (q.x - p.x);
    assert (p.y - q.y) * (p.y - q.y) == (q.y - p.y) * (q.y - p.y);
  }

  // ---------------------------------------------------------------- label maps

  /** One `item` of a StringIntLabelMap; `displayName` is `None` when the field is not set. */
  datatype LabelItem = LabelItem(id: int, name: string, displayName: Option<string>)

  datatype LabelMapError = NegativeId | ReservedZero

  datatype Category = Category(id: int, name: string)

  /** The value protobuf reports for `display_name` (the empty string when unset). */
  function DisplayNameText(item: LabelItem): string {
    if item.displayName.Some? then item.displayName.value else ""
  }

  /** The ValueError one item triggers in `_validate_label_map`, if any. */
  function ItemError(item: LabelItem): (e: Option<LabelMapError>)
    ensures e == Some(NegativeId) <==> item.id < 0
    ensures e == Some(ReservedZero) <==>
      item.id == 0 && item.name != "background" && DisplayNameText(item) != "background"
  {
    if item.id < 0 then Some(NegativeId)
    else if item.id == 0 && item.name != "background" && DisplayNameText(item) != "background" then Some(ReservedZero)
    else None
  }

  /** `_validate_label_map`: the error of the first offending item, `None` when every item is acceptable. */
  method ValidateLabelMap(items: seq<LabelItem>) returns (err: Option<LabelMapError>)
    ensures err.None? <==> forall k :: 0 <= k < |items| ==> ItemError(items[k]).None?
    ensures err.Some? ==> exists k :: 0 <= k < |items| && ItemError(items[k]) == err
                                      && forall k' :: 0 <= k' < k ==> ItemError(items[k']).None?
  {
    var i := 0;
    while i < |items|
      invariant 0 <= i <= |items|
      invariant forall k :: 0 <= k < i ==> ItemError(items[k]).None?
    {
      if items[i].id < 0 {
        return Some(NegativeId);
      }
      if items[i].id == 0 && items[i].name != "background" && DisplayNameText(items[i]) != "background" {
        return Some(ReservedZero);
      }
      i := i + 1;
    }
    return None;
  }

  /** Decimal digits of a natural number, as `str(n)` prints them. */
  function DecimalString(n: nat): (s: string)
    ensures |s| >= 1
    ensures forall k :: 0 <= k < |s| ==> '0' <= s[k] <= '9'
  {
    if n < 10 then [DigitChar(n)] else DecimalString(n / 10) + [DigitChar(n % 10)]
  }

  function DigitChar(d: nat): (c: char)
    requires d < 10
    ensures '0' <= c <= '9'
  {
    ['0', '1', '2', '3', '4', '5', '6', '7', '8', '9'][d]
  }

  /** The name a label item contributes: its display name when requested and present, else its name. */
  function CategoryName(item: LabelItem, useDisplayName: bool): string {
    if useDisplayName && item.displayName.Some? then item.displayName.value else item.name
  }

  function Ids(cats: seq<Category>): set<int> {
    set c | c in cats :: c.id
  }

  /**
   * The categories `convert_label_map_to_categories` builds from the items
   * of a label map: in-range ids only, each id once, first occurrence first.
   */
  function CategoriesOf(items: seq<LabelItem>, maxNumClasses: int, useDisplayName: bool): seq<Category>
    decreases |items|
  {
    if items == [] then []
    else
      var prev := CategoriesOf(items[..|items| - 1], maxNumClasses, useDisplayName);
      var item := items[|items| - 1];
      if !(0 < item.id <= maxNumClasses) || item.id in Ids(prev) then prev
      else prev + [Category(item.id, CategoryName(item, useDisplayName))]
  }

  /** The categories synthesised when no label map is given: ids 1..max, named `category_k`. */
  function DefaultCategory(k: nat): Category {
    Category(k, "category_" + DecimalString(k))
  }

  /**
   * `convert_label_map_to_categories`. `labelMap == None` is the source's
   * falsy label map.
   */
  method ConvertLabelMapToCategories(labelMap: Option<seq<LabelItem>>, maxNumClasses: int, useDisplayName: bool)
    returns (categories: seq<Category>)
    ensures labelMap.None? ==>
      |categories| == (if maxNumClasses < 0 then 0 else maxNumClasses)
      && forall k :: 0 <= k < |categories| ==> categories[k] == DefaultCategory(k + 1)
    ensures labelMap.Some? ==> categories == CategoriesOf(labelMap.value, maxNumClasses, useDisplayName)
  {
    categories := [];
    if labelMap.None? {
      var classId := 0;
      while classId < maxNumClasses
        invariant 0 <= classId && (maxNumClasses >= 0 ==> classId <= maxNumClasses)
        invariant maxNumClasses < 0 ==> classId == 0
        invariant |categories| == classId
        invariant forall k :: 0 <= k < classId ==> categories[k] == DefaultCategory(k + 1)
      {
        categories := categories + [Category(classId + 1, "category_" + DecimalString(classId + 1))];
        classId := classId + 1;
      }
      return;
    }
    var items := labelMap.value;
    var idsAlreadyAdded: seq<int> := [];
    var i := 0;
    while i < |items|
      invariant 0 <= i <= |items|
      invariant categories == CategoriesOf(items[..i], maxNumClasses, useDisplayName)
      invariant forall id :: id in idsAlreadyAdded <==> id in Ids(categories)
    {
      assert items[..i + 1][..i] == items[..i];
      var item := items[i];
      if !(0 < item.id <= maxNumClasses) {
        i := i + 1;
        continue;
      }
      var name := if useDisplayName && item.displayName.Some? then item.displayName.value else item.name;
      if item.id !in idsAlreadyAdded {
        idsAlreadyAdded := idsAlreadyAdded + [item.id];
        categories := categories + [Category(item.id, name)];
      }
      i := i + 1;
    }
    assert items[..|items|] == items;
  }

  lemma {:induction false} CategoriesInRange(items: seq<LabelItem>, maxNumClasses: int, useDisplayName: bool)
    ensures forall c :: c in CategoriesOf(items, maxNumClasses, useDisplayName) ==> 0 < c.id <= maxNumClasses
  {
    if items != [] {
      CategoriesInRange(items[..|items| - 1], maxNumClasses, useDisplayName);
    }
  }

  predicate DistinctIds(cs: seq<Category>) {
    forall a, b :: 0 <= a < b < |cs| ==> cs[a].id != cs[b].id
  }

  /** Each category id occurs once. */
  lemma {:induction false} CategoriesDistinct(items: seq<LabelItem>, maxNumClasses: int, useDisplayName: bool)
    ensures DistinctIds(CategoriesOf(items, maxNumClasses, useDisplayName))
  {
    if items != [] {
      var prev := CategoriesOf(items[..|items| - 1], maxNumClasses, useDisplayName);
      var item := items[|items| - 1];
      CategoriesDistinct(items[..|items| - 1], maxNumClasses, useDisplayName);
      var cs := CategoriesOf(items, maxNumClasses, useDisplayName);
      if 0 < item.id <= maxNumClasses && item.id !in Ids(prev) {
        assert cs == prev + [Category(item.id, CategoryName(item, useDisplayName))];
        forall a, b | 0 <= a < b < |cs| ensures cs[a].id != cs[b].id {
          if b == |prev| {
            assert prev[a] in prev;
          } else {
            assert cs[a] == prev[a] && cs[b] == prev[b];
          }
        }
      } else {
        assert cs == prev;
      }
    }
  }

  /** Every in-range id of the label map has a category. */
  lemma {:induction false} CategoriesComplete(items: seq<LabelItem>, maxNumClasses: int, useDisplayName: bool)
    ensures forall k :: 0 <= k < |items| && 0 < items[k].id <= maxNumClasses
              ==> items[k].id in Ids(CategoriesOf(items, maxNumClasses, useDisplayName))
  {
    if items != [] {
      var prefix := items[..|items| - 1];
      CategoriesComplete(prefix, maxNumClasses, useDisplayName);
      forall k | 0 <= k < |items| && 0 < items[k].id <= maxNumClasses
        ensures items[k].id in Ids(CategoriesOf(items, maxNumClasses, useDisplayName))
      {
        if k < |prefix| {
          assert prefix[k] == items[k];
        }
      }
    }
  }

  /** Each category carries the id and name of the FIRST label item with that id. */
  lemma {:induction false} CategoriesFirstWins(items: seq<LabelItem>, maxNumClasses: int, useDisplayName: bool)
    ensures forall c :: c in CategoriesOf(items, maxNumClasses, useDisplayName) ==>
              exists k :: 0 <= k < |items| && items[k].id == c.id
                          && c.name == CategoryName(items[k], useDisplayName)
                          && forall k' :: 0 <= k' < k ==> items[k'].id != c.id
  {
    if items != [] {
      var prefix := items[..|items| - 1];
      var prev := CategoriesOf(prefix, maxNumClasses, useDisplayName);
      CategoriesFirstWins(prefix, maxNumClasses, useDisplayName);
      CategoriesComplete(prefix, maxNumClasses, useDisplayName);
      forall c | c in CategoriesOf(items, maxNumClasses, useDisplayName)
        ensures exists k :: 0 <= k < |items| && items[k].id == c.id
                            && c.name == CategoryName(items[k], useDisplayName)
                            && forall k' :: 0 <= k' < k ==> items[k'].id != c.id
      {
        if c in prev {
          var k :| 0 <= k < |prefix| && prefix[k].id == c.id
                   && c.name == CategoryName(prefix[k], useDisplayName)
                   && forall k' :: 0 <= k' < k ==> prefix[k'].id != c.id;
          assert items[k] == prefix[k];
          assert forall k' :: 0 <= k' < k ==> items[k'] == prefix[k'];
        } else {
          var last := |items| - 1;
          assert c.id == items[last].id && c.name == CategoryName(items[last], useDisplayName);
          forall k' | 0 <= k' < last ensures items[k'].id != c.id {
            assert items[k'] == prefix[k'];
          }
        }
      }
    }
  }

  /**
   * `create_category_index`: maps each category id to its category; a later
   * category with the same id overwrites an earlier one.
   */
  method CreateCategoryIndex(categories: seq<Category>) returns (index: map<int, Category>)
    ensures index.Keys == Ids(categories)
    ensures forall id :: id in index ==>
              exists k :: 0 <= k < |categories| && categories[k] == index[id] && index[id].id == id
                          && forall k' :: k < k' < |categories| ==> categories[k'].id != id
  {
    index := map[];
    var i := 0;
    while i < |categories|
      invariant 0 <= i <= |categories|
      invariant index.Keys == Ids(categories[..i])
      invariant forall id :: id in index ==>
                  exists k :: 0 <= k < i && categories[k] == index[id] && index[id].id == id
                              && forall k' :: k < k' < i ==> categories[k'].id != id
    {
      assert categories[..i + 1] == categories[..i] + [categories[i]];
      index := index[categories[i].id := categories[i]];
      i := i + 1;
    }
    assert categories[..i] == categories;
  }

  /** A draw of `random.choice(string.digits)`: the index of the chosen digit. */
  type Digit = d: int | 0 <= d < 10

  /** `random_id`: the five drawn digits as a string. The random source becomes the parameter. */
  function RandomId(draws: seq<Digit>): (s: string)
    requires |draws| == 5
    ensures |s| == 5
    ensures forall k :: 0 <= k < 5 ==> '0' <= s[k] <= '9' && s[k] == DigitChar(draws[k])
  {
    seq(5, k requires 0 <= k < 5 => DigitChar(draws[k]))
  }

  // ---------------------------------------------------------------- resizing

  /** Python's `int()` on a float: truncation toward zero. */
  function Truncate(x: real): int {
    if x >= 0.0 then x.Floor else -((-x).Floor)
  }

  /** What `resize_max_size` does with an image of the given size. */
  datatype ResizePlan =
    | KeepAsIs
    | ByWidth(width: int, height: int)
    | ByHeight(width: int, height: int)
    | ResizeDivisionByZero

  function MinInt(a: int, b: int): int { if a <= b then a else b }

  /** `num / den` as Python's true division computes it. */
  function Ratio(num: int, den: int): real
    requires den != 0
  {
    num as real / den as real
  }

  /** `int(dim * num / den)`: the other side of the image scaled by the ratio `num / den`. */
  function Scaled(dim: int, num: int, den: int): int
    requires den != 0
  {
    Truncate(dim as real * num as real / den as real)
  }

  /**
   * The branch structure of `resize_max_size` with the target size that
   * `resize_by_width` / `resize_by_height` compute; the pixel resampling is
   * not modelled.
   */
  function PlanResize(imgW: int, imgH: int, maxW: int, maxH: int): (p: ResizePlan)
    ensures p == KeepAsIs <==> imgW <= maxW && imgH <= maxH
    ensures p == ResizeDivisionByZero <==> !(imgW <= maxW && imgH <= maxH) && (imgW == 0 || imgH == 0)
    ensures p.ByWidth? ==> imgW != 0 && imgH != 0 && p.width == MinInt(maxW, imgW)
                           && Ratio(MinInt(maxW, imgW), imgW) < Ratio(MinInt(maxH, imgH), imgH)
    ensures p.ByHeight? ==> imgW != 0 && imgH != 0 && p.height == MinInt(maxH, imgH)
                            && Ratio(MinInt(maxW, imgW), imgW) >= Ratio(MinInt(maxH, imgH), imgH)
  {
    if imgW <= maxW && imgH <= maxH then KeepAsIs
    else
      var mw := MinInt(maxW, imgW);
      var mh := MinInt(maxH, imgH);
      if imgW == 0 || imgH == 0 then ResizeDivisionByZero
      else if Ratio(mw, imgW) < Ratio(mh, imgH) then ByWidth(mw, Scaled(imgH, mw, imgW))
      else ByHeight(Scaled(imgW, mh, imgH), mh)
  }

  /** Scaling a side by a ratio that does not exceed `bound / dim` keeps it within `bound`. */
  lemma ScaledWithin(dim: int, num: int, den: int, bound: int)
    requires dim > 0 && den > 0 && num >= 0 && bound >= 0
    requires Ratio(num, den) <= Ratio(bound, dim)
    ensures 0 <= Scaled(dim, num, den) <= bound
  {
    var a, b, c, d := num as real, den as real, bound as real, dim as real;
    assert d * (a / b) <= d * (c / d);
    assert d * (c / d) == c;
    assert d * a / b == d * (a / b);
    var x := d * a / b;
    assert 0.0 <= x <= c;
    assert 0 <= x.Floor <= bound;
  }

  /** Whatever branch is taken, the new size fits within the maximum (for non-negative maxima). */
  lemma ResizedFits(imgW: int, imgH: int, maxW: int, maxH: int)
    requires imgW > 0 && imgH > 0 && maxW >= 0 && maxH >= 0
    ensures PlanResize(imgW, imgH, maxW, maxH) != ResizeDivisionByZero
    ensures PlanResize(imgW, imgH, maxW, maxH).ByWidth? || PlanResize(imgW, imgH, maxW, maxH).ByHeight? ==>
              0 <= PlanResize(imgW, imgH, maxW, maxH).width <= maxW
              && 0 <= PlanResize(imgW, imgH, maxW, maxH).height <= maxH
  {
    var mw := MinInt(maxW, imgW);
    var mh := MinInt(maxH, imgH);
    if !(imgW <= maxW && imgH <= maxH) {
      if Ratio(mw, imgW) < Ratio(mh, imgH) {
        ScaledWithin(imgH, mw, imgW, mh);
      } else {
        ScaledWithin(imgW, mh, imgH, mw);
      }
    }
  }
}
