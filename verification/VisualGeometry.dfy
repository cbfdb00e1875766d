/**
 * The exact visual comparison: which box the changed pixels fill, and which part of
 * the frame is cut out around them.
 */
module VisualGeometry {
  import opened Options

  // ---- rectangles of pixels ----

  /** The pixels with x0 <= x < x1 and y0 <= y < y1. */
  datatype Rect = Rect(x0: int, y0: int, x1: int, y1: int) {
    function Dx(): int { x1 - x0 }

    function Dy(): int { y1 - y0 }

    predicate Empty() { x0 >= x1 || y0 >= y1 }

    predicate Has(x: int, y: int) { x0 <= x < x1 && y0 <= y < y1 }

    function Intersect(s: Rect): Rect {
      var r := Rect(Max(x0, s.x0), Max(y0, s.y0), Min(x1, s.x1), Min(y1, s.y1));
      if r.Empty() then ZERO else r
    }

    function Union(s: Rect): Rect {
      if Empty() then s
      else if s.Empty() then this
      else Rect(Min(x0, s.x0), Min(y0, s.y0), Max(x1, s.x1), Max(y1, s.y1))
    }

    /** Grown by n on every side. */
    function Outset(n: nat): Rect
    {
      var xs := if Dx() < -2 * n then ((x0 + x1) / 2, (x0 + x1) / 2) else (x0 - n, x1 + n);
      var ys := if Dy() < -2 * n then ((y0 + y1) / 2, (y0 + y1) / 2) else (y0 - n, y1 + n);
      Rect(xs.0, ys.0, xs.1, ys.1)
    }

    /** Every pixel of this one is a pixel of s. */
    predicate Within(s: Rect) {
      Empty() || (s.x0 <= x0 && s.y0 <= y0 && x1 <= s.x1 && y1 <= s.y1)
    }
  }

  const ZERO := Rect(0, 0, 0, 0)

  function Min(a: int, b: int): int { if a < b then a else b }

  function Max(a: int, b: int): int { if a < b then b else a }

  /** A rectangle with its corners in order. */
  function Ordered(x0: int, y0: int, x1: int, y1: int): Rect {
    Rect(Min(x0, x1), Min(y0, y1), Max(x0, x1), Max(y0, y1))
  }

  // ---- the changed box ----

  type Byte = b: int | 0 <= b < 256

  /** A screenshot: rows of pixels, each of them four bytes. */
  datatype Image = Image(width: nat, height: nat, pix: seq<Byte>) {
    predicate Whole() { |pix| == 4 * (width * height) }

    predicate Inside(x: int, y: int) { 0 <= x < width && 0 <= y < height }

    function Bounds(): Rect { Rect(0, 0, width, height) }

    function PixOffset(x: int, y: int): int { y * (4 * width) + 4 * x }

    /** The four bytes of a pixel. */
    function At(x: int, y: int): seq<Byte>
      requires Whole() && Inside(x, y)
    {
      OffsetInside(x, y);
      pix[PixOffset(x, y)..PixOffset(x, y) + 4]
    }

    lemma OffsetInside(x: int, y: int)
      requires Whole() && Inside(x, y)
      ensures 0 <= PixOffset(x, y) <= |pix| - 4
    {
      assert (y + 1) * (4 * width) <= height * (4 * width) == 4 * (width * height);
      assert (y + 1) * (4 * width) == y * (4 * width) + 4 * width;
    }
  }

  predicate SameSize(before: Image, after: Image) {
    before.Whole() && after.Whole() && before.width == after.width && before.height == after.height
  }

  predicate Differs(before: Image, after: Image, x: int, y: int)
    requires SameSize(before, after)
  {
    after.Inside(x, y) && before.At(x, y) != after.At(x, y)
  }

  /** The pixels that differ in the rows above y, and in row y left of x. */
  ghost function Changed(before: Image, after: Image, y: nat, x: nat): set<(int, int)>
    requires SameSize(before, after)
  {
    set i, j | 0 <= i < after.width && 0 <= j < after.height && Differs(before, after, i, j) && (j < y || (j == y && i < x)) :: (i, j)
  }

  lemma ChangedAt(before: Image, after: Image, y: nat, x: nat, p: (int, int))
    requires SameSize(before, after)
    ensures p in Changed(before, after, y, x) <==> Differs(before, after, p.0, p.1) && (p.1 < y || (p.1 == y && p.0 < x))
  {
    assert p == (p.0, p.1);
  }

  lemma ChangedStep(before: Image, after: Image, y: nat, x: nat)
    requires SameSize(before, after)
    ensures Changed(before, after, y, x + 1) ==
      Changed(before, after, y, x) + if Differs(before, after, x, y) then {(x, y)} else {}
    ensures (x, y) !in Changed(before, after, y, x)
  {
    var s, t := Changed(before, after, y, x + 1), Changed(before, after, y, x) + if Differs(before, after, x, y) then {(x, y)} else {};
    hide Differs;
    forall p
      ensures p in s <==> p in t
    {
      ChangedAt(before, after, y, x + 1, p);
      ChangedAt(before, after, y, x, p);
      assert p.0 == x && p.1 == y ==> p == (x, y);
    }
    ChangedAt(before, after, y, x, (x, y));
  }

  lemma ChangedRow(before: Image, after: Image, y: nat)
    requires SameSize(before, after)
    ensures Changed(before, after, y, after.width) == Changed(before, after, y + 1, 0)
    ensures Changed(before, after, 0, 0) == {}
  {
    var s, t := Changed(before, after, y, after.width), Changed(before, after, y + 1, 0);
    forall p
      ensures p in s <==> p in t
    {
      ChangedAt(before, after, y, after.width, p);
      ChangedAt(before, after, y + 1, 0, p);
    }
  }

  lemma NothingChanged(before: Image, after: Image)
    requires SameSize(before, after)
    ensures Changed(before, after, after.height, 0) == {} <==> forall x, y :: !Differs(before, after, x, y)
  {
    var s := Changed(before, after, after.height, 0);
    if s == {} {
      forall x, y
        ensures !Differs(before, after, x, y)
      {
        ChangedAt(before, after, after.height, 0, (x, y));
      }
    } else {
      var p :| p in s;
      ChangedAt(before, after, after.height, 0, p);
    }
  }

  /** All pixels that differ. */
  ghost function Differing(before: Image, after: Image): set<(int, int)>
    requires SameSize(before, after)
  {
    Changed(before, after, after.height, 0)
  }

  lemma DifferingAt(before: Image, after: Image, x: int, y: int)
    requires SameSize(before, after)
    ensures (x, y) in Differing(before, after) <==> Differs(before, after, x, y)
  {
    ChangedAt(before, after, after.height, 0, (x, y));
  }

  /** box holds the points, and each of its sides touches one of them. */
  ghost predicate IsHull(box: Rect, points: set<(int, int)>) {
    && (forall p :: p in points ==> box.Has(p.0, p.1))
    && (points == {} ==> box == ZERO)
    && (points != {} ==>
          && (exists p :: p in points && p.0 == box.x0) && (exists p :: p in points && p.0 + 1 == box.x1)
          && (exists p :: p in points && p.1 == box.y0) && (exists p :: p in points && p.1 + 1 == box.y1))
  }

  lemma HullGrows(box: Rect, points: set<(int, int)>, x: int, y: int)
    requires IsHull(box, points)
    ensures IsHull(box.Union(Ordered(x, y, x + 1, y + 1)), points + {(x, y)})
  {
    var grown, more := box.Union(Ordered(x, y, x + 1, y + 1)), points + {(x, y)};
    assert (x, y) in more;
    if points != {} {
      var a :| a in points && a.0 == box.x0;
      var b :| b in points && b.0 + 1 == box.x1;
      var c :| c in points && c.1 == box.y0;
      var d :| d in points && d.1 + 1 == box.y1;
      assert a in more && b in more && c in more && d in more;
      assert !box.Empty();
    }
  }

  /** The exact number of changed pixels and the smallest box that holds them. */
  method VisualChanges(before: Image, after: Image) returns (changed: Rect, count: nat)
    requires SameSize(before, after)
    ensures IsHull(changed, Differing(before, after))
    ensures count == |Differing(before, after)|
    ensures count == 0 <==> forall x, y :: !Differs(before, after, x, y)
  {
    hide IsHull, Changed, Differs, Image.PixOffset, Image.At;
    changed, count := ZERO, 0;
    ChangedRow(before, after, 0);
    NoHull();
    for y := 0 to after.height
      invariant IsHull(changed, Changed(before, after, y, 0)) && count == |Changed(before, after, y, 0)|
    {
      for x := 0 to after.width
        invariant IsHull(changed, Changed(before, after, y, x)) && count == |Changed(before, after, y, x)|
      {
        ChangedStep(before, after, y, x);
        var i, j := before.PixOffset(x, y), after.PixOffset(x, y);
        SameBytes(before, after, x, y);
        if before.pix[i] == after.pix[j] && before.pix[i + 1] == after.pix[j + 1]
           && before.pix[i + 2] == after.pix[j + 2] && before.pix[i + 3] == after.pix[j + 3] {
          continue;
        }
        HullGrows(changed, Changed(before, after, y, x), x, y);
        count := count + 1;
        changed := changed.Union(Ordered(x, y, x + 1, y + 1));
      }
      ChangedRow(before, after, y);
    }
    NothingChanged(before, after);
  }

  lemma SameBytes(before: Image, after: Image, x: int, y: int)
    requires SameSize(before, after) && after.Inside(x, y)
    ensures var i := after.PixOffset(x, y);
      && i == before.PixOffset(x, y) && 0 <= i <= |before.pix| - 4 && 0 <= i <= |after.pix| - 4
      && (Differs(before, after, x, y) <==>
          !(before.pix[i] == after.pix[i] && before.pix[i + 1] == after.pix[i + 1]
            && before.pix[i + 2] == after.pix[i + 2] && before.pix[i + 3] == after.pix[i + 3]))
  {
    before.OffsetInside(x, y);
    after.OffsetInside(x, y);
    var i := after.PixOffset(x, y);
    var a, b := before.At(x, y), after.At(x, y);
    assert a[0] == before.pix[i] && a[1] == before.pix[i + 1] && a[2] == before.pix[i + 2] && a[3] == before.pix[i + 3];
    assert b[0] == after.pix[i] && b[1] == after.pix[i + 1] && b[2] == after.pix[i + 2] && b[3] == after.pix[i + 3];
  }

  /** The box of the differing pixels lies in the frame and holds them. */
  lemma HullOfDiffering(before: Image, after: Image, box: Rect)
    requires SameSize(before, after) && IsHull(box, Differing(before, after)) && Differing(before, after) != {}
    ensures !box.Empty() && box.Within(after.Bounds())
    ensures forall x, y :: Differs(before, after, x, y) ==> box.Has(x, y)
  {
    hide Changed;
    var points := Differing(before, after);
    forall p | p in points
      ensures after.Inside(p.0, p.1)
    {
      DifferingAt(before, after, p.0, p.1);
      assert p == (p.0, p.1);
    }
    forall x, y | Differs(before, after, x, y)
      ensures box.Has(x, y)
    {
      DifferingAt(before, after, x, y);
    }
    hide Differs;
    var some :| some in points;
    assert box.Has(some.0, some.1);
  }

  lemma NoHull()
    ensures IsHull(ZERO, {})
  {}

  // ---- the context ----

  datatype Area = Area(x: real, y: real, width: real, height: real)

  /** What was captured: the document, its tab, the part of the page, and every other coordinate as one text. */
  datatype Scope = Scope(document: string, tab: int, rect: Area, rest: string)

  /** The captured part of the page and the boxes of the components on it. */
  datatype Frame = Frame(scope: Scope, contexts: seq<Area>)

  function Ceil(r: real): int { -((-r).Floor) }

  /** The pixels a component covers, cut to the frame. */
  function Component(c: Area, scope: Area, bounds: Rect): Rect
    requires scope.width > 0.0 && scope.height > 0.0
  {
    var sx, sy := bounds.Dx() as real / scope.width, bounds.Dy() as real / scope.height;
    Ordered(((c.x - scope.x) * sx).Floor, ((c.y - scope.y) * sy).Floor,
            Ceil((c.x + c.width - scope.x) * sx), Ceil((c.y + c.height - scope.y) * sy)).Intersect(bounds)
  }

  /** The component is drawn and touches the changed box. */
  predicate Touches(c: Area, scope: Area, bounds: Rect, changed: Rect)
    requires scope.width > 0.0 && scope.height > 0.0
  {
    c.width > 0.0 && c.height > 0.0 && !Component(c, scope, bounds).Intersect(changed).Empty()
  }

  predicate Scaled(f: Frame) {
    f.scope.rect.width > 0.0 && f.scope.rect.height > 0.0
  }

  /** Every component of the frame that touches the change is inside. */
  predicate HoldsComponents(result: Rect, f: Frame, n: nat, bounds: Rect, changed: Rect)
    requires Scaled(f) && n <= |f.contexts|
  {
    forall k :: 0 <= k < n && Touches(f.contexts[k], f.scope.rect, bounds, changed) ==>
      Component(f.contexts[k], f.scope.rect, bounds).Within(result)
  }

  lemma WithinTransitive(a: Rect, b: Rect, c: Rect)
    requires a.Within(b) && b.Within(c)
    ensures a.Within(c)
  {}

  lemma HoldsMore(a: Rect, b: Rect, f: Frame, n: nat, bounds: Rect, changed: Rect)
    requires Scaled(f) && n <= |f.contexts| && HoldsComponents(a, f, n, bounds, changed) && a.Within(b)
    ensures HoldsComponents(b, f, n, bounds, changed)
  {
    hide Component;
  }

  lemma UnionWithin(a: Rect, b: Rect, bounds: Rect)
    requires !a.Empty() && a.Within(bounds) && b.Within(bounds)
    ensures a.Within(a.Union(b)) && b.Within(a.Union(b)) && !a.Union(b).Empty() && a.Union(b).Within(bounds)
  {}

  /** Growing inside the bounds keeps what is inside and widens every side that can move. */
  lemma GrowStep(a: Rect, n: nat, bounds: Rect)
    requires !a.Empty() && a.Within(bounds) && n > 0
    ensures var b := a.Outset(n).Intersect(bounds);
      && !b.Empty() && a.Within(b) && b.Within(bounds)
      && b.Dx() >= a.Dx() && b.Dy() >= a.Dy()
      && (a.Dx() < bounds.Dx() ==> b.Dx() > a.Dx()) && (a.Dy() < bounds.Dy() ==> b.Dy() > a.Dy())
  {}

  /** Adds the components of one frame that touch the change. */
  method AddComponents(start: Rect, changed: Rect, bounds: Rect, f: Frame) returns (result: Rect)
    requires Scaled(f) && !start.Empty() && start.Within(bounds)
    ensures !result.Empty() && result.Within(bounds) && start.Within(result)
    ensures HoldsComponents(result, f, |f.contexts|, bounds, changed)
  {
    hide Component;
    result := start;
    for k := 0 to |f.contexts|
      invariant !result.Empty() && result.Within(bounds) && start.Within(result)
      invariant HoldsComponents(result, f, k, bounds, changed)
    {
      var c := f.contexts[k];
      if c.width <= 0.0 || c.height <= 0.0 {
        continue;
      }
      var r := Component(c, f.scope.rect, bounds);
      ComponentWithin(c, f.scope.rect, bounds);
      if !r.Intersect(changed).Empty() {
        UnionWithin(result, r, bounds);
        WithinTransitive(start, result, result.Union(r));
        HoldsMore(result, result.Union(r), f, k, bounds, changed);
        result := result.Union(r);
      }
    }
  }

  lemma ComponentWithin(c: Area, scope: Area, bounds: Rect)
    requires scope.width > 0.0 && scope.height > 0.0
    ensures Component(c, scope, bounds).Within(bounds)
  {}

  /**
   * The crop lies in the frame, holds the changed box and, whole, every component of
   * either frame that touches it, and is at least 256 by 192 pixels where the frame is.
   */
  method VisualContextRect(changed: Rect, bounds: Rect, before: Frame, after: Frame) returns (result: Rect)
    requires Scaled(before) && Scaled(after) && !changed.Empty() && changed.Within(bounds)
    ensures result.Within(bounds) && changed.Within(result)
    ensures HoldsComponents(result, before, |before.contexts|, bounds, changed)
    ensures HoldsComponents(result, after, |after.contexts|, bounds, changed)
    ensures result.Dx() >= Min(256, bounds.Dx()) && result.Dy() >= Min(192, bounds.Dy())
  {
    hide Touches, HoldsComponents;
    GrowStep(changed, 64, bounds);
    result := changed.Outset(64).Intersect(bounds);
    ghost var first := result;
    result := AddComponents(result, changed, bounds, before);
    WithinTransitive(changed, first, result);
    ghost var second := result;
    result := AddComponents(result, changed, bounds, after);
    WithinTransitive(changed, second, result);
    HoldsMore(second, result, before, |before.contexts|, bounds, changed);
    while result.Dx() < Min(256, bounds.Dx()) || result.Dy() < Min(192, bounds.Dy())
      invariant !result.Empty() && result.Within(bounds) && changed.Within(result)
      invariant HoldsComponents(result, before, |before.contexts|, bounds, changed)
      invariant HoldsComponents(result, after, |after.contexts|, bounds, changed)
      decreases (bounds.Dx() - result.Dx()) + (bounds.Dy() - result.Dy())
    {
      var grown := result.Outset(16).Intersect(bounds);
      GrowStep(result, 16, bounds);
      WithinTransitive(changed, result, grown);
      HoldsMore(result, grown, before, |before.contexts|, bounds, changed);
      HoldsMore(result, grown, after, |after.contexts|, bounds, changed);
      result := grown;
    }
  }
}
