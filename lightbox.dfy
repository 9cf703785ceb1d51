/** The lightbox: a modal image viewer opened from gallery thumbnails, with
    click-to-zoom and drag-to-pan. The three `setTimeout` callbacks (show after
    10 ms, hide after 300 ms, clear the drag flag after 50 ms) are counted while
    pending and fired by the environment; none of them is ever cancelled. */
module Lightbox {
  import opened Common

  const ZoomScale: real := 2.5

  /** Which handlers setup managed to attach. */
  datatype Wiring = Wiring(thumbnails: bool, closeButton: bool, backdrop: bool, zoomPan: bool)

  /** The image's inline `transform`: empty, or `scale(s) translate(dx px, dy px)`. */
  datatype Transform = NoTransform | ScaleTranslate(scale: real, dx: real, dy: real)

  /** Where a click on the modal originated. */
  datatype ClickTarget = ModalBackdrop | ContentWrapper | ModalImage | OtherElement

  /** The transform applied while panning: translating by `t / 2.5` under a
      2.5x scale moves the image on screen by exactly `t`. */
  function PanTransform(t: Point): (r: Transform)
    ensures r.ScaleTranslate? && r.scale == ZoomScale
    ensures r.scale * r.dx == t.x && r.scale * r.dy == t.y
  {
    ScaleTranslate(ZoomScale, t.x / ZoomScale, t.y / ZoomScale)
  }

  class Viewer {
    const wired: Wiring
    /** `modal.style.display` is `flex` (rather than `none`). */
    var displayed: bool
    /** The modal has the `show` class. */
    var shown: bool
    /** `modalImg.src`. */
    var src: Option<string>
    /** The image has the `zoomed` class. */
    var zoomedClass: bool
    var isZoomed: bool
    var isDragging: bool
    /** `startX`, `startY`: undefined until the first mousedown while zoomed. */
    var start: Option<Point>
    /** `translateX`, `translateY`. */
    var translate: Point
    var transform: Transform
    /** The document-level `mousemove`/`mouseup` listeners are attached. */
    var tracking: bool
    var showPending: nat
    var hidePending: nat
    var dragClearPending: nat

    /** The `zoomed` class mirrors `isZoomed`; an unzoomed image has no pan
        offset and no transform; document tracking only follows a mousedown. */
    ghost predicate Valid()
      reads this
    {
      zoomedClass == isZoomed &&
      (!isZoomed ==> translate == Origin && transform == NoTransform) &&
      (tracking ==> start.Some?)
    }

    constructor (wired: Wiring)
      ensures Valid() && this.wired == wired
      ensures !displayed && !shown && src == None && !isZoomed && !isDragging && !tracking
      ensures translate == Origin && transform == NoTransform && start == None
      ensures showPending == 0 && hidePending == 0 && dragClearPending == 0
    {
      this.wired := wired;
      displayed, shown, src := false, false, None;
      zoomedClass, isZoomed, isDragging := false, false, false;
      start, translate, transform := None, Origin, NoTransform;
      tracking := false;
      showPending, hidePending, dragClearPending := 0, 0, 0;
    }

    /** `resetPan()`; it clears `isZoomed` but leaves the `zoomed` class to its callers. */
    method ResetPan()
      modifies this
      ensures translate == Origin && transform == NoTransform && !isZoomed
      ensures displayed == old(displayed) && shown == old(shown) && src == old(src)
      ensures zoomedClass == old(zoomedClass) && isDragging == old(isDragging)
      ensures start == old(start) && tracking == old(tracking)
      ensures showPending == old(showPending) && hidePending == old(hidePending)
      ensures dragClearPending == old(dragClearPending)
    {
      translate := Origin;
      transform := NoTransform;
      isZoomed := false;
    }

    /** A click on a gallery thumbnail whose source is `imageSrc`. */
    method OpenThumbnail(imageSrc: string)
      requires Valid()
      modifies this
      ensures Valid()
      ensures !wired.thumbnails ==> unchanged(this)
      ensures wired.thumbnails ==>
        displayed && src == Some(imageSrc) && shown == old(shown) &&
        !isZoomed && !zoomedClass && translate == Origin && transform == NoTransform &&
        showPending == old(showPending) + 1 && hidePending == old(hidePending) &&
        isDragging == old(isDragging) && tracking == old(tracking) && start == old(start) &&
        dragClearPending == old(dragClearPending)
    {
      if !wired.thumbnails { return; }
      displayed := true;
      showPending := showPending + 1;
      src := Some(imageSrc);
      zoomedClass := false;
      ResetPan();
    }

    /** The 10 ms fade-in timer adds `show`. */
    method FireShow()
      requires Valid() && showPending > 0
      modifies this
      ensures Valid() && shown && showPending == old(showPending) - 1
      ensures displayed == old(displayed) && src == old(src) && isZoomed == old(isZoomed)
      ensures translate == old(translate) && transform == old(transform)
      ensures isDragging == old(isDragging) && tracking == old(tracking) && start == old(start)
      ensures hidePending == old(hidePending) && dragClearPending == old(dragClearPending)
    {
      showPending := showPending - 1;
      shown := true;
    }

    /** `closeModal()`: `show` goes at once; the rest waits for the 300 ms timer. */
    method CloseModal()
      requires Valid()
      modifies this
      ensures Valid() && !shown && hidePending == old(hidePending) + 1
      ensures displayed == old(displayed) && src == old(src) && isZoomed == old(isZoomed)
      ensures translate == old(translate) && transform == old(transform)
      ensures isDragging == old(isDragging) && tracking == old(tracking) && start == old(start)
      ensures showPending == old(showPending) && dragClearPending == old(dragClearPending)
    {
      shown := false;
      hidePending := hidePending + 1;
    }

    /** A click on the close button. */
    method CloseButtonClick()
      requires Valid()
      modifies this
      ensures Valid()
      ensures !wired.closeButton ==> unchanged(this)
      ensures wired.closeButton ==>
        !shown && hidePending == old(hidePending) + 1 &&
        displayed == old(displayed) && src == old(src) && isZoomed == old(isZoomed) &&
        translate == old(translate) && transform == old(transform) &&
        isDragging == old(isDragging) && tracking == old(tracking) && start == old(start) &&
        showPending == old(showPending) && dragClearPending == old(dragClearPending)
    {
      if !wired.closeButton { return; }
      CloseModal();
    }

    /** A click that reaches the modal: it closes only when it landed on the
        backdrop itself or the content wrapper, never when it landed on the image. */
    method ModalClick(target: ClickTarget)
      requires Valid()
      modifies this
      ensures Valid()
      ensures !(wired.backdrop && (target == ModalBackdrop || target == ContentWrapper)) ==> unchanged(this)
      ensures wired.backdrop && (target == ModalBackdrop || target == ContentWrapper) ==>
        !shown && hidePending == old(hidePending) + 1 &&
        displayed == old(displayed) && src == old(src) && isZoomed == old(isZoomed) &&
        translate == old(translate) && transform == old(transform) &&
        isDragging == old(isDragging) && tracking == old(tracking) && start == old(start) &&
        showPending == old(showPending) && dragClearPending == old(dragClearPending)
    {
      if !wired.backdrop { return; }
      if target == ModalBackdrop || target == ContentWrapper {
        CloseModal();
      }
    }

    /** The 300 ms close timer: hide the modal, drop the zoom and the pan. It runs
        even when the modal was reopened in the meantime. */
    method FireHide()
      requires Valid() && hidePending > 0
      modifies this
      ensures Valid() && hidePending == old(hidePending) - 1
      ensures !displayed && !zoomedClass && !isZoomed && translate == Origin && transform == NoTransform
      ensures shown == old(shown) && src == old(src) && showPending == old(showPending)
      ensures isDragging == old(isDragging) && tracking == old(tracking) && start == old(start)
      ensures dragClearPending == old(dragClearPending)
    {
      hidePending := hidePending - 1;
      displayed := false;
      zoomedClass := false;
      ResetPan();
    }

    /** A click on the image toggles the zoom unless a drag is still flagged;
        zooming out drops the pan. */
    method ImageClick()
      requires Valid()
      modifies this
      ensures Valid()
      ensures !wired.zoomPan || old(isDragging) ==> unchanged(this)
      ensures wired.zoomPan && !old(isDragging) ==>
        isZoomed == !old(isZoomed) &&
        (isZoomed ==> translate == old(translate) && transform == old(transform)) &&
        displayed == old(displayed) && shown == old(shown) && src == old(src) &&
        isDragging == old(isDragging) && tracking == old(tracking) && start == old(start) &&
        showPending == old(showPending) && hidePending == old(hidePending) &&
        dragClearPending == old(dragClearPending)
    {
      if !wired.zoomPan || isDragging { return; }
      isZoomed := !isZoomed;
      if isZoomed {
        zoomedClass := true;
      } else {
        zoomedClass := false;
        ResetPan();
      }
    }

    /** A mousedown on the image: ignored unless zoomed; otherwise it records the
        pointer's offset from the current translation and starts document tracking. */
    method MouseDown(client: Point)
      requires Valid()
      modifies this
      ensures Valid()
      ensures !wired.zoomPan || !old(isZoomed) ==> unchanged(this)
      ensures wired.zoomPan && old(isZoomed) ==>
        !isDragging && tracking && start == Some(Sub(client, translate)) &&
        isZoomed && translate == old(translate) && transform == old(transform) &&
        displayed == old(displayed) && shown == old(shown) && src == old(src) &&
        showPending == old(showPending) && hidePending == old(hidePending) &&
        dragClearPending == old(dragClearPending)
    {
      if !wired.zoomPan || !isZoomed { return; }
      isDragging := false;
      start := Some(Sub(client, translate));
      tracking := true;
    }

    /** A mousemove on the document: handled only while tracking and zoomed; it
        flags a drag and moves the image so the pointer keeps its offset. */
    method MouseMove(client: Point)
      requires Valid()
      modifies this
      ensures Valid()
      ensures !old(tracking && isZoomed) ==> unchanged(this)
      ensures old(tracking && isZoomed) ==>
        start == old(start) && start.Some? &&
        isDragging && translate == Sub(client, start.value) && transform == PanTransform(translate) &&
        isZoomed && tracking &&
        displayed == old(displayed) && shown == old(shown) && src == old(src) &&
        showPending == old(showPending) && hidePending == old(hidePending) &&
        dragClearPending == old(dragClearPending)
    {
      if !tracking || !isZoomed { return; }
      isDragging := true;
      translate := Sub(client, start.value);
      transform := PanTransform(translate);
    }

    /** A mouseup on the document while tracking: stop tracking and schedule the
        50 ms timer that clears the drag flag. */
    method MouseUp()
      requires Valid()
      modifies this
      ensures Valid()
      ensures !old(tracking) ==> unchanged(this)
      ensures old(tracking) ==>
        !tracking && dragClearPending == old(dragClearPending) + 1 &&
        isDragging == old(isDragging) && isZoomed == old(isZoomed) &&
        translate == old(translate) && transform == old(transform) && start == old(start) &&
        displayed == old(displayed) && shown == old(shown) && src == old(src) &&
        showPending == old(showPending) && hidePending == old(hidePending)
    {
      if !tracking { return; }
      tracking := false;
      dragClearPending := dragClearPending + 1;
    }

    /** The 50 ms timer: `isDragging = false`. */
    method FireDragClear()
      requires Valid() && dragClearPending > 0
      modifies this
      ensures Valid() && !isDragging && dragClearPending == old(dragClearPending) - 1
      ensures isZoomed == old(isZoomed) && translate == old(translate) && transform == old(transform)
      ensures tracking == old(tracking) && start == old(start)
      ensures displayed == old(displayed) && shown == old(shown) && src == old(src)
      ensures showPending == old(showPending) && hidePending == old(hidePending)
    {
      dragClearPending := dragClearPending - 1;
      isDragging := false;
    }

    /** Dragging pans by the pointer's displacement: after a mousedown at `from`
        and a move to `to`, the translation is the old one plus `to - from`. */
    method Pan(from: Point, to: Point)
      requires Valid() && wired.zoomPan && isZoomed
      modifies this
      ensures Valid() && isZoomed && isDragging && tracking
      ensures translate == Add(old(translate), Sub(to, from))
      ensures transform == PanTransform(translate)
    {
      MouseDown(from);
      MouseMove(to);
    }

    /** Drag then click: mousedown, move, mouseup, and the click arriving before
        the 50 ms timer fires leaves the zoom on. */
    method DragThenClick(from: Point, to: Point)
      requires Valid() && wired.zoomPan && isZoomed
      modifies this
      ensures Valid() && isZoomed && isDragging && !tracking && dragClearPending == old(dragClearPending) + 1
      ensures translate == Add(old(translate), Sub(to, from))
    {
      MouseDown(from);
      MouseMove(to);
      MouseUp();
      ImageClick();
    }

    /** A plain click on the zoomed image (mousedown and mouseup with no move in
        between) zooms out and drops the pan. */
    method PlainClickUnzooms(at: Point)
      requires Valid() && wired.zoomPan && isZoomed
      modifies this
      ensures Valid() && !isZoomed && !zoomedClass && translate == Origin && transform == NoTransform
    {
      MouseDown(at);
      MouseUp();
      ImageClick();
    }

    /** Closing and reopening within 300 ms: the pending hide still runs and
        leaves the reopened modal hidden. */
    method CloseThenReopen(imageSrc: string)
      requires Valid() && wired.thumbnails && wired.closeButton
      modifies this
      ensures Valid() && !displayed && src == Some(imageSrc) && hidePending == old(hidePending)
    {
      CloseButtonClick();
      OpenThumbnail(imageSrc);
      FireHide();
    }
  }
}
