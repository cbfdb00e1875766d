/**
 * Visual references: the comparison of two screenshots, and the registry of stored references
 * with its limits. A stored reference is identified by its revision, as the program
 * identifies it by its address; advancing stores a new one under the same handle.
 */
module VisualBaseline {
  import opened Options
  import opened MapSum
  import opened VisualGeometry

  const MAX_STORED := 8
  const MAX_PER_TAB := 2
  const MAX_BYTES := 67108864
  const MAX_INLINE := 524288
  /** Times are milliseconds. */
  const TTL := 300000

  // ---- what a comparison reports ----

  datatype Status = Unchanged | Changed | NotComparable | NotUseful

  datatype Phase = BeforeImage | AfterImage

  datatype Evidence = Evidence(phase: Phase, rect: Rect, size: nat)

  /** changedPixels and changedRect are None where there is nothing to say. */
  datatype Compared = Compared(status: Status, comparable: bool, requiresNew: bool, changedPixels: Option<nat>,
                               changedRect: Option<Rect>, images: seq<Evidence>)

  datatype Wish = Wish(includeBefore: bool, fallback: bool)

  /** A screenshot with the frame it was taken in. */
  datatype Capture = Capture(frame: Frame, image: Image)

  /** What the decoder lets through. */
  predicate Decoded(c: Capture) {
    c.image.Whole() && c.image.width > 0 && c.image.height > 0 && Scaled(c.frame)
  }

  /** The same coordinate frame, and so the same document and tab, and the same size. */
  predicate Comparable(before: Capture, after: Capture) {
    before.frame.scope == after.frame.scope && before.image.Bounds() == after.image.Bounds()
  }

  /** Little enough has changed, in a small enough part of the frame, to show a crop. */
  predicate Localized(count: nat, crop: Rect, bounds: Rect, includeBefore: bool) {
    var area := bounds.Dx() * bounds.Dy();
    count * 100 < 35 * area && crop.Dx() * crop.Dy() * (if includeBefore then 2 else 1) * 2 < area
  }

  lemma LocalizedIs(count: nat, crop: Rect, image: Image, includeBefore: bool)
    ensures Localized(count, crop, image.Bounds(), includeBefore) <==>
      && 100 * count < 35 * (image.width * image.height)
      && (if includeBefore then 4 else 2) * (crop.Dx() * crop.Dy()) < image.width * image.height
  {}

  function TotalSize(images: seq<Evidence>): nat {
    if images == [] then 0 else images[0].size + TotalSize(images[1..])
  }

  lemma OneSize(e: Evidence)
    ensures TotalSize([e]) == e.size && TotalSize([]) == 0
  {
    assert [e][1..] == [];
  }

  lemma TwoSizes(d: Evidence, e: Evidence)
    ensures TotalSize([d] + [e]) == d.size + e.size
  {
    assert ([d] + [e])[1..] == [e];
    OneSize(e);
  }

  /** The crop that a comparison would show holds the change and what belongs to it. */
  ghost predicate IsContext(before: Capture, after: Capture, changed: Rect, crop: Rect)
    requires Decoded(before) && Decoded(after)
  {
    var bounds := after.image.Bounds();
    && changed.Within(crop) && crop.Within(bounds)
    && HoldsComponents(crop, before.frame, |before.frame.contexts|, bounds, changed)
    && HoldsComponents(crop, after.frame, |after.frame.contexts|, bounds, changed)
  }

  /** Every differing pixel of the two screenshots is in the rectangle. */
  ghost predicate ShowsAll(before: Image, after: Image, rect: Rect)
    requires SameSize(before, after)
  {
    forall x, y :: Differs(before, after, x, y) ==> rect.Has(x, y)
  }

  /** What a report says about the pixels is so. */
  ghost predicate TellsPixels(before: Capture, after: Capture, c: Compared)
    requires Decoded(before) && Decoded(after)
  {
    if !Comparable(before, after) then c.status == NotComparable && c.changedPixels == None && c.changedRect == None
    else
      && c.status != NotComparable
      && c.changedPixels == Some(|Differing(before.image, after.image)|)
      && (c.status == Unchanged <==> forall x, y :: !Differs(before.image, after.image, x, y))
      && (c.status == Unchanged <==> c.changedRect == None)
      && (c.status != Unchanged ==> IsHull(c.changedRect.value, Differing(before.image, after.image)))
  }

  /** The images of a report fit, and those of a report of changes show every changed pixel. */
  ghost predicate ShowsChanges(before: Capture, after: Capture, wish: Wish, c: Compared)
    requires Decoded(before) && Decoded(after)
  {
    && TotalSize(c.images) <= MAX_INLINE
    && (c.status == Unchanged ==> c.images == [])
    && (c.status == Changed ==>
          && Comparable(before, after)
          && |c.images| == (if wish.includeBefore then 2 else 1)
          && c.images[|c.images| - 1].phase == AfterImage
          && (wish.includeBefore ==> c.images[0].phase == BeforeImage)
          && (forall e :: e in c.images ==> e.rect == c.images[0].rect && e.rect.Within(after.image.Bounds()))
          && ShowsAll(before.image, after.image, c.images[0].rect))
    && (c.status != Changed && c.images != [] ==>
          wish.fallback && |c.images| == 1 && c.images[0].phase == AfterImage && c.images[0].rect == after.image.Bounds())
  }

  /** The report is true of the two screenshots. */
  ghost predicate Honest(before: Capture, after: Capture, wish: Wish, c: Compared)
    requires Decoded(before) && Decoded(after)
  {
    && c.comparable == Comparable(before, after) && c.requiresNew == !c.comparable
    && TellsPixels(before, after, c) && ShowsChanges(before, after, wish, c)
  }

  lemma TellsUnlike(before: Capture, after: Capture, c: Compared)
    requires Decoded(before) && Decoded(after) && !Comparable(before, after)
    requires c.status == NotComparable && c.changedPixels == None && c.changedRect == None
    ensures TellsPixels(before, after, c)
  {}

  lemma TellsSame(before: Capture, after: Capture, c: Compared)
    requires Decoded(before) && Decoded(after) && Comparable(before, after) && c.status == Unchanged
    requires c.changedPixels == Some(|Differing(before.image, after.image)|) == Some(0) && c.changedRect == None
    requires forall x, y :: !Differs(before.image, after.image, x, y)
    ensures TellsPixels(before, after, c)
  {
    hide Differs, IsHull, Differing;
  }

  lemma TellsChanged(before: Capture, after: Capture, c: Compared)
    requires Decoded(before) && Decoded(after) && Comparable(before, after) && c.status in {Changed, NotUseful}
    requires c.changedPixels == Some(|Differing(before.image, after.image)|) && c.changedRect.Some?
    requires IsHull(c.changedRect.value, Differing(before.image, after.image))
    requires exists x, y :: Differs(before.image, after.image, x, y)
    ensures TellsPixels(before, after, c)
  {
    hide Differs, IsHull, Differing;
  }

  lemma TellsImages(before: Capture, after: Capture, c: Compared, d: Compared)
    requires Decoded(before) && Decoded(after) && TellsPixels(before, after, c) && d == c.(images := d.images)
    ensures TellsPixels(before, after, d)
  {
    hide Differs, IsHull, Differing;
  }

  lemma ShowsNothing(before: Capture, after: Capture, wish: Wish, c: Compared)
    requires Decoded(before) && Decoded(after) && c.images == [] && c.status != Changed
    ensures ShowsChanges(before, after, wish, c)
  {}

  lemma ShowsFull(before: Capture, after: Capture, wish: Wish, c: Compared, size: nat)
    requires Decoded(before) && Decoded(after) && c.status in {NotComparable, NotUseful} && wish.fallback && size <= MAX_INLINE
    requires c.images == [Evidence(AfterImage, after.image.Bounds(), size)]
    ensures ShowsChanges(before, after, wish, c)
  {
    OneSize(c.images[0]);
  }

  lemma ShowsCrop(before: Capture, after: Capture, wish: Wish, c: Compared, crop: Rect, bytes: nat, size: nat)
    requires Decoded(before) && Decoded(after) && Comparable(before, after) && c.status == Changed
    requires bytes + size <= MAX_INLINE && c.changedRect.Some? && c.changedRect.value.Within(crop) && crop.Within(after.image.Bounds())
    requires forall x, y :: Differs(before.image, after.image, x, y) ==> c.changedRect.value.Has(x, y)
    requires c.images == (if wish.includeBefore then [Evidence(BeforeImage, crop, bytes)] else []) + [Evidence(AfterImage, crop, size)]
    ensures ShowsChanges(before, after, wish, c)
  {
    hide Differs;
    OneSize(Evidence(AfterImage, crop, size));
    TwoSizes(Evidence(BeforeImage, crop, bytes), Evidence(AfterImage, crop, size));
    assert [] + [Evidence(AfterImage, crop, size)] == [Evidence(AfterImage, crop, size)];
  }

  /**
   * Compares two screenshots pixel by pixel. encoded gives the size of the image cut out
   * of a screenshot. A comparison of changes is reported as such exactly when the change
   * is small, its context is small, and their images fit.
   */
  method CompareVisual(before: Capture, after: Capture, wish: Wish, encoded: (Image, Rect) -> nat)
    returns (c: Compared, ghost crop: Rect)
    requires Decoded(before) && Decoded(after)
    ensures Honest(before, after, wish, c)
    ensures c.comparable && c.status != Unchanged ==> IsContext(before, after, c.changedRect.value, crop)
    ensures c.status == Changed <==>
      && c.comparable && c.changedPixels.value > 0
      && 100 * c.changedPixels.value < 35 * (after.image.width * after.image.height)
      && (if wish.includeBefore then 4 else 2) * (crop.Dx() * crop.Dy()) < after.image.width * after.image.height
      && (if wish.includeBefore then encoded(before.image, crop) else 0) + encoded(after.image, crop) <= MAX_INLINE
    ensures c.status == Changed ==> c.images[0].rect == crop
    ensures c.status in {NotComparable, NotUseful} ==>
      (c.images != [] <==> wish.fallback && encoded(after.image, after.image.Bounds()) <= MAX_INLINE)
  {
    hide Differs, IsHull, HoldsComponents, TotalSize, Scaled, TellsPixels, ShowsChanges, Localized;
    var bounds := after.image.Bounds();
    crop := ZERO;
    c := Compared(Unchanged, Comparable(before, after), false, None, None, []);
    if !c.comparable {
      c := c.(status := NotComparable, requiresNew := true);
      TellsUnlike(before, after, c);
    } else {
      var changed, count := VisualChanges(before.image, after.image);
      c := c.(changedPixels := Some(count));
      if count == 0 {
        TellsSame(before, after, c);
        ShowsNothing(before, after, wish, c);
        return;
      }
      HullOfDiffering(before.image, after.image, changed);
      c := c.(changedRect := Some(changed));
      var context := VisualContextRect(changed, bounds, before.frame, after.frame);
      crop := context;
      LocalizedIs(count, context, after.image, wish.includeBefore);
      if Localized(count, context, bounds, wish.includeBefore) {
        var images: seq<Evidence> := [];
        var bytes := 0;
        if wish.includeBefore {
          bytes := encoded(before.image, context);
          images := [Evidence(BeforeImage, context, bytes)];
        }
        var size := encoded(after.image, context);
        if bytes + size <= MAX_INLINE {
          images := images + [Evidence(AfterImage, context, size)];
          c := c.(status := Changed, images := images);
          TellsChanged(before, after, c);
          ShowsCrop(before, after, wish, c, context, bytes, size);
          return;
        }
      }
      c := c.(status := NotUseful, images := []);
      TellsChanged(before, after, c);
    }
    ShowsNothing(before, after, wish, c);
    if !wish.fallback {
      return;
    }
    var size := encoded(after.image, bounds);
    if size > MAX_INLINE {
      return;
    }
    ghost var told := c;
    c := c.(images := [Evidence(AfterImage, bounds, size)]);
    TellsImages(before, after, told, c);
    ShowsFull(before, after, wish, c, size);
  }

  // ---- the registry ----

  datatype Reference = Reference(revision: nat, target: nat, capture: Capture, expires: int)

  type Stored = map<string, Reference>

  function Bytes(): Reference -> nat {
    (r: Reference) => |r.capture.image.pix|
  }

  function OnTab(target: nat, tab: int): Reference -> nat {
    (r: Reference) => if r.target == target && r.capture.frame.scope.tab == tab then 1 else 0
  }

  ghost predicate WithinLimits(stored: Stored) {
    && |stored| <= MAX_STORED && Sum(stored, Bytes()) <= MAX_BYTES
    && forall target, tab :: Sum(stored, OnTab(target, tab)) <= MAX_PER_TAB
  }

  lemma RemoveKeepsLimits(stored: Stored, id: string)
    requires WithinLimits(stored)
    ensures WithinLimits(stored - {id})
  {
    if id in stored {
      FewerItems(stored, id);
      SumRemove(stored, Bytes(), id);
      forall target, tab
        ensures Sum(stored - {id}, OnTab(target, tab)) <= MAX_PER_TAB
      {
        SumRemove(stored, OnTab(target, tab), id);
      }
    } else {
      assert stored - {id} == stored;
    }
  }

  lemma InsertKeepsLimits(stored: Stored, id: string, r: Reference)
    requires WithinLimits(stored) && id !in stored && |stored| < MAX_STORED
    requires Sum(stored, OnTab(r.target, r.capture.frame.scope.tab)) < MAX_PER_TAB
    requires Sum(stored, Bytes()) + |r.capture.image.pix| <= MAX_BYTES
    ensures WithinLimits(stored[id := r])
  {
    hide Sum;
    assert stored[id := r].Keys == stored.Keys + {id};
    SumPut(stored, Bytes(), id, r);
    forall target, tab
      ensures Sum(stored[id := r], OnTab(target, tab)) <= MAX_PER_TAB
    {
      InsertOnTab(stored, id, r, target, tab);
    }
  }

  lemma InsertOnTab(stored: Stored, id: string, r: Reference, target: nat, tab: int)
    requires id !in stored && Sum(stored, OnTab(target, tab)) <= MAX_PER_TAB
    requires Sum(stored, OnTab(r.target, r.capture.frame.scope.tab)) < MAX_PER_TAB
    ensures Sum(stored[id := r], OnTab(target, tab)) <= MAX_PER_TAB
  {
    hide Sum;
    SumPut(stored, OnTab(target, tab), id, r);
  }

  /** Replacing a reference by one of the same tab and size keeps every limit. */
  lemma ReplaceKeepsLimits(stored: Stored, id: string, r: Reference)
    requires WithinLimits(stored) && id in stored
    requires r.target == stored[id].target && r.capture.frame.scope.tab == stored[id].capture.frame.scope.tab
    requires |r.capture.image.pix| == |stored[id].capture.image.pix|
    ensures WithinLimits(stored[id := r])
  {
    hide Sum;
    assert stored[id := r].Keys == stored.Keys;
    SumPut(stored, Bytes(), id, r);
    forall target, tab
      ensures Sum(stored[id := r], OnTab(target, tab)) <= MAX_PER_TAB
    {
      SumPut(stored, OnTab(target, tab), id, r);
    }
  }

  function Unexpired(stored: Stored, now: int): Stored {
    map id | id in stored && stored[id].expires > now :: stored[id]
  }

  datatype Answer = Success | QuotaExceeded | Invalidated

  class Registry {
    var stored: Stored
    var next: nat
    /** Every reference ever stored, by its revision. */
    ghost var history: map<nat, Reference>

    ghost predicate Valid()
      reads this
    {
      && WithinLimits(stored)
      && (forall revision :: revision in history ==>
            revision < next && history[revision].revision == revision && Decoded(history[revision].capture))
      && (forall id :: id in stored ==> stored[id].revision in history && history[stored[id].revision] == stored[id])
    }

    constructor ()
      ensures Valid() && stored == map[]
    {
      stored, next, history := map[], 0, map[];
    }

    method Remove(id: string)
      requires Valid()
      modifies this`stored
      ensures Valid() && stored == old(stored) - {id}
    {
      hide WithinLimits, Decoded;
      RemoveKeepsLimits(stored, id);
      stored := stored - {id};
    }

    method Prune(now: int)
      requires Valid()
      modifies this`stored
      ensures Valid() && stored == Unexpired(old(stored), now)
    {
      hide WithinLimits, Decoded;
      var ids := stored.Keys;
      while ids != {}
        invariant Valid() && ids <= old(stored).Keys
        invariant stored == map id | id in old(stored) && (id in ids || old(stored)[id].expires > now) :: old(stored)[id]
        decreases |ids|
      {
        var id :| id in ids;
        ids := ids - {id};
        if stored[id].expires <= now {
          Remove(id);
        }
      }
    }

    /** The references of a tab that navigated or closed are dropped, and no others. */
    method InvalidateTab(target: nat, tab: int)
      requires Valid()
      modifies this`stored
      ensures Valid()
      ensures stored == map id | id in old(stored) && OnTab(target, tab)(old(stored)[id]) == 0 :: old(stored)[id]
    {
      hide WithinLimits, Decoded;
      var ids := stored.Keys;
      while ids != {}
        invariant Valid() && ids <= old(stored).Keys
        invariant stored == map id | id in old(stored) && (id in ids || OnTab(target, tab)(old(stored)[id]) == 0) :: old(stored)[id]
        decreases |ids|
      {
        var id :| id in ids;
        ids := ids - {id};
        if stored[id].target == target && stored[id].capture.frame.scope.tab == tab {
          Remove(id);
        }
      }
    }

    method Usage(target: nat, tab: int) returns (retained: nat, perTab: nat)
      ensures retained == Sum(stored, Bytes()) && perTab == Sum(stored, OnTab(target, tab))
    {
      retained, perTab := 0, 0;
      var rest := stored;
      while rest != map[]
        invariant rest.Keys <= stored.Keys && forall id :: id in rest ==> rest[id] == stored[id]
        invariant retained + Sum(rest, Bytes()) == Sum(stored, Bytes())
        invariant perTab + Sum(rest, OnTab(target, tab)) == Sum(stored, OnTab(target, tab))
        decreases |rest|
      {
        var id :| id in rest;
        SumRemove(rest, Bytes(), id);
        SumRemove(rest, OnTab(target, tab), id);
        FewerItems(rest, id);
        retained := retained + |rest[id].capture.image.pix|;
        if rest[id].target == target && rest[id].capture.frame.scope.tab == tab {
          perTab := perTab + 1;
        }
        rest := rest - {id};
      }
    }

    /** A reference is stored exactly when every limit leaves room for it. */
    method Create(id: string, target: nat, capture: Capture, now: int) returns (answer: Answer)
      requires Valid() && Decoded(capture) && id !in stored
      modifies this
      ensures Valid()
      ensures var live := Unexpired(old(stored), now);
        if |live| < MAX_STORED && Sum(live, OnTab(target, capture.frame.scope.tab)) < MAX_PER_TAB
           && Sum(live, Bytes()) + |capture.image.pix| <= MAX_BYTES
        then answer == Success && stored == live[id := Reference(old(next), target, capture, now + TTL)]
        else answer == QuotaExceeded && stored == live
      ensures forall revision :: revision in old(history) ==> revision in history && history[revision] == old(history)[revision]
    {
      hide WithinLimits, Decoded, Sum, Bytes, OnTab;
      Prune(now);
      var retained, perTab := Usage(target, capture.frame.scope.tab);
      if |stored| >= MAX_STORED || perTab >= MAX_PER_TAB || retained + |capture.image.pix| > MAX_BYTES {
        return QuotaExceeded;
      }
      var r := Reference(next, target, capture, now + TTL);
      InsertKeepsLimits(stored, id, r);
      stored := stored[id := r];
      history := history[next := r];
      next := next + 1;
      return Success;
    }

    /**
     * Completes a comparison that was made against the reference compared. It succeeds
     * only if that very reference is stored under the handle at this moment; advancing
     * puts the new capture in its place and keeps every limit.
     */
    method Complete(id: string, compared: Reference, capture: Capture, wish: Wish, report: Compared, advance: bool, now: int) returns (answer: Answer)
      requires Valid() && Decoded(capture)
      requires compared.revision in history && history[compared.revision] == compared
      requires compared.capture.frame.scope.document == capture.frame.scope.document ==>
        Honest(compared.capture, capture, wish, report)
      modifies this
      ensures Valid()
      ensures var live := Unexpired(old(stored), now);
        if id !in live || live[id].revision != compared.revision then answer == Invalidated && stored == live
        else if compared.capture.frame.scope.document != capture.frame.scope.document then answer == Invalidated && stored == live - {id}
        else
          && answer == Success && live[id] == compared
          && stored == (if report.requiresNew then live - {id}
                        else if advance && (report.status == Unchanged || report.images != []) then
                          live[id := compared.(revision := old(next), capture := capture)]
                        else live)
    {
      hide WithinLimits, TellsPixels, ShowsChanges, Sum, Bytes, OnTab;
      Prune(now);
      if id !in stored || stored[id].revision != compared.revision {
        return Invalidated;
      }
      assert stored[id] == compared;
      if compared.capture.frame.scope.document != capture.frame.scope.document {
        Remove(id);
        return Invalidated;
      }
      if report.requiresNew {
        Remove(id);
      } else if advance && (report.status == Unchanged || |report.images| > 0) {
        var updated := compared.(revision := next, capture := capture);
        ReplaceKeepsLimits(stored, id, updated);
        stored := stored[id := updated];
        history := history[next := updated];
        next := next + 1;
      }
      return Success;
    }

    /**
     * The answer to a new screenshot: it is compared with the reference the request was
     * made for, where both show one document, and the comparison is completed.
     */
    method Respond(id: string, compared: Reference, capture: Capture, wish: Wish, encoded: (Image, Rect) -> nat, advance: bool, now: int)
      returns (answer: Answer, report: Option<Compared>)
      requires Valid() && Decoded(capture)
      requires compared.revision in history && history[compared.revision] == compared
      modifies this
      ensures Valid()
      ensures report.Some? <==> compared.capture.frame.scope.document == capture.frame.scope.document
      ensures report.Some? ==> Honest(compared.capture, capture, wish, report.value)
      ensures answer == Success ==> report.Some?
      ensures var live := Unexpired(old(stored), now);
        answer == Success <==> id in live && live[id].revision == compared.revision && report.Some?
      ensures answer == Success ==>
        var live := Unexpired(old(stored), now);
        stored == (if report.value.status == NotComparable then live - {id}
                   else if advance && (report.value.status == Unchanged || report.value.images != []) then
                     live[id := compared.(revision := old(next), capture := capture)]
                   else live)
    {
      hide WithinLimits, Decoded, TellsPixels, ShowsChanges;
      if compared.capture.frame.scope.document != capture.frame.scope.document {
        answer := Complete(id, compared, capture, wish, Compared(NotComparable, false, true, None, None, []), advance, now);
        return answer, None;
      }
      var c, crop := CompareVisual(compared.capture, capture, wish, encoded);
      StatusOfReport(compared.capture, capture, wish, c);
      answer := Complete(id, compared, capture, wish, c, advance, now);
      report := Some(c);
    }
  }

  lemma StatusOfReport(before: Capture, after: Capture, wish: Wish, c: Compared)
    requires Decoded(before) && Decoded(after) && Honest(before, after, wish, c)
    ensures c.requiresNew <==> c.status == NotComparable
  {}
}
