# Interactive layer of the webinar pages, modelled in Dafny

Two browser scripts drive the webinar site. `presentation.js` runs the slide
deck: an IntersectionObserver marks slides `active` and highlights the
matching navigation link, the statistics slide starts a one-shot donut chart
animation (an interval that eases a percentage from 0 to 78 over 120 frames),
the agenda slide reveals its timeline items one after another as the pointer
comes near them, and a lightbox shows gallery images with click-to-zoom and
drag-to-pan. `script.js` runs the landing page: a hero background parallax on
scroll, a one-shot fade-in of content blocks, a tilt/parallax effect on the
security diagram, and the same lightbox with a guard around its setup.

The model keeps the state these handlers update and passes in what the browser
reports as parameters: pointer coordinates, bounding rectangles, whether an
observed element intersects, `window.scrollY`. Every `setTimeout` callback is
a pending-timer counter plus a method that fires it. The environment may fire
pending timers in any order, so the model covers every ordering the clock
could produce.

Modules, one per controller:

- `Common`: points, rectangles, optional values, observer entries.
- `Easing`: `easeOutCubic` and `Math.round` over `real`.
- `Chart`: the chart animator class and the frame-by-frame value.
- `Slides`: the slide observer callback and `updateNavigation`.
- `Reveal`: the `revealed` array and one mousemove pass over it.
- `Lightbox`: one `Viewer` class for both copies of the lightbox.
- `Setup`: which lightbox and reveal handlers each script manages to attach.
- `Tilt`: tilt and layer offsets as functions, and the stage as a class.
- `FadeIn`: the fade-in observer callback.
- `Hero`: the hero scroll parallax.

Behaviour when elements are missing follows the code of each script:

- `script.js` guards its lightbox with `if (modal && modalImg && galleryImages.length > 0)` (script.js:97). Inside that guard it uses `.lightbox-close` without a check. Without a close button the setup throws after the thumbnail handlers, so the backdrop and zoom/pan handlers are never attached.
- `presentation.js` checks none of its lightbox elements (presentation.js:104-146). A missing `.lightbox-close`, `#lightbox-modal` or `#lightbox-img` makes its setup throw. The zoom/pan handlers and the whole progressive reveal after them are then never attached (`Setup.PresentationOrder`, `Setup.RevealWired`).
- With no timeline items, `revealed[0] = true` (presentation.js:202) grows the empty array to length 1, and `Reveal.Timeline` keeps that length.

## Model

| member | source | states |
|---|---|---|
| Easing.EaseOutCubic | presentation.js:74-78 | the curve starts at the start value `b` at `t = 0` and ends exactly at `b + c` at `t = d` |
| Easing.EaseBounds | presentation.js:74-78 | for `c >= 0` and `0 <= t <= d` the eased value lies in `[b, b + c]` |
| Easing.EaseMonotone | presentation.js:74-78 | for `d > 0` and `c >= 0` the eased value never decreases as `t` grows |
| Easing.JsRound | presentation.js:48 | `Math.round` gives the integer within half a unit, halves going up |
| Chart.TotalFrames | presentation.js:45-48 | `Math.round(2000 / 1000 * 60)` is 120 frames |
| Chart.ValueAt | presentation.js:54-61 | the value shown after a frame lies in `[0, 78]`, is 0 before the first tick and exactly 78 from frame 120 on |
| Chart.ValueAtMonotone | presentation.js:54-61 | a later frame never shows a smaller value |
| Chart.LabelBoundsAndMonotone | presentation.js:67 | the rounded label stays within 0..78 and never goes down from one tick to the next |
| Chart.ChartAnimator.constructor | presentation.js:34 | the guard `chartAnimated` starts false, with no interval and no painting |
| Chart.ChartAnimator.AnimateChart | presentation.js:36-54 | a second call changes nothing; the first sets the guard before the element check, and starts the interval at frame 0 only when the chart and the label exist |
| Chart.ChartAnimator.Tick | presentation.js:54-69 | a tick advances the frame by one and paints the eased value and its rounding; the 120th tick paints exactly 78 and clears the interval, and after that no tick changes anything |
| Slides.AnchorMatches | presentation.js:83 | `Anchor`, the link target `#${id}`, tells ids apart: two slides with ids select the same links iff their ids are equal; a slide without an id gives `#null` and so selects the links of a slide whose id is "null" |
| Slides.LastEntered | presentation.js:11-19 | picks the last intersecting entry of the batch, and is None exactly when no entry intersects |
| Slides.SlideDeck.constructor | presentation.js:2-3 | the deck holds the slides and links of the page, with the `active` flags the markup gives them |
| Slides.SlideDeck.UpdateNavigation | presentation.js:80-87 | afterwards a link is active iff its `href` equals `#` + id, so no other link stays active |
| Slides.SlideDeck.OnIntersection | presentation.js:11-27 | a slide is active afterwards iff it was before or an entry for it intersects, so `active` is never removed; the links follow the last intersecting slide; the chart is triggered iff the statistics slide intersects |
| Reveal.WithinReachNearCentre | presentation.js:233-244 | the pointer on an item's centre is within reach; within reach means closer than 150 px along each axis |
| Reveal.PassDeterministic | presentation.js:225-250 | one pass over the items has exactly one outcome for a given array and pointer |
| Reveal.PassGrows | presentation.js:225-250 | a pass never turns a flag from true to false and keeps the array prefix-closed (`revealed[i]` implies `revealed[i-1]`) |
| Reveal.PassRevealsOnlyNext | presentation.js:227-245 | an item a pass reveals was hidden, its predecessor is revealed by then, and the pointer is within reach of it |
| Reveal.PassCascade | presentation.js:225-250 | with item 0 revealed and the pointer within reach of items 1..k, one pass reveals all of items 0..k |
| Reveal.Timeline.constructor | presentation.js:198-202 | only item 0 starts revealed |
| Reveal.Timeline.HandleMouseMove | presentation.js:221-251 | nothing changes unless the agenda slide is active. Otherwise the array becomes the outcome of one in-order pass (`IsPass`), with item `i` tested by `WithinReach`: `dx*dx + dy*dy < 150*150` to its centre. Item 0 stays revealed, no flag is lost and the array stays prefix-closed |
| Lightbox.PanTransform | presentation.js:184 | the applied transform is a 2.5x scale with a translation of `translate / 2.5`, so the image moves on screen by exactly `translate` |
| Lightbox.Viewer.constructor | presentation.js:141-144 | the viewer starts closed, unzoomed, not dragging, with no translation and no pending timer |
| Lightbox.Viewer.ResetPan | presentation.js:158-163 | zeroes the translation, clears the transform and `isZoomed`, and changes nothing else |
| Lightbox.Viewer.OpenThumbnail | presentation.js:111-119 | opening shows the modal with the clicked source, unzoomed with zero translation, and schedules the fade-in; nothing happens when not wired |
| Lightbox.Viewer.FireShow | presentation.js:114 | the 10 ms timer adds `show` and changes nothing else |
| Lightbox.Viewer.CloseModal | presentation.js:122-129 | removes `show` at once and schedules the 300 ms hide |
| Lightbox.Viewer.CloseButtonClick | presentation.js:131 | a close-button click, when wired, removes `show` and schedules the hide, and changes nothing else |
| Lightbox.Viewer.ModalClick | presentation.js:134-138 | a click closes only when it landed on the backdrop or the content wrapper; closing removes `show` and schedules the hide, and changes nothing else |
| Lightbox.Viewer.FireHide | presentation.js:124-128 | the 300 ms timer hides the modal, unzooms and zeroes the translation, even if the modal was reopened meanwhile |
| Lightbox.Viewer.ImageClick | presentation.js:146-156 | an image click toggles `isZoomed` iff `isDragging` is false; zooming out zeroes the translation |
| Lightbox.Viewer.MouseDown | presentation.js:166-176 | ignored unless zoomed; otherwise clears the drag flag, records `start = client - translate` and starts document tracking |
| Lightbox.Viewer.MouseMove | presentation.js:178-185 | a move while not tracking or while unzoomed changes nothing; otherwise it flags a drag and sets `translate = client - start` with the matching transform |
| Lightbox.Viewer.MouseUp | presentation.js:187-193 | stops tracking and schedules the 50 ms drag-flag clear |
| Lightbox.Viewer.FireDragClear | presentation.js:192 | the 50 ms timer clears `isDragging` and changes nothing else |
| Lightbox.Viewer.Pan | presentation.js:166-185 | after a mousedown at one point and a move to another, the translation is the old one plus the pointer's displacement |
| Lightbox.Viewer.DragThenClick | presentation.js:146-193 | mousedown, move, mouseup and a click before the 50 ms timer fires leave the image zoomed |
| Lightbox.Viewer.PlainClickUnzooms | presentation.js:146-193 | mousedown and mouseup with no move, then a click, unzoom and zero the translation |
| Lightbox.Viewer.CloseThenReopen | presentation.js:111-128 | closing then reopening before the hide timer fires ends with the modal hidden, because that timer is never cancelled |
| Setup.RevealWired | presentation.js:131-197 | the progressive reveal is wired iff the agenda slide exists and the lightbox setup before it did not throw |
| Setup.ScriptGuard | script.js:97-119 | `ScriptWiring`, the handlers the landing page attaches: it wires no lightbox handler unless the modal, the image and a thumbnail exist; with them, thumbnails are wired and the close button decides the rest |
| Setup.PresentationOrder | presentation.js:104-146 | `PresentationWiring`, the handlers the slide deck attaches: every handler needs the modal and the image; zoom/pan is wired iff the close button exists as well, and backdrop and close button go with it |
| Setup.CopiesAgree | script.js:97-119 | with the whole markup both copies wire everything; they agree whenever a thumbnail exists; without one the landing page wires nothing while the slide deck still wires close, backdrop and zoom/pan; whatever the landing page wires, the slide deck wires too |
| Setup.MoreMarkupWiresMore | presentation.js:104-146 | adding elements to the page never unwires a lightbox handler in either copy, nor the progressive reveal |
| Setup.MissingCloseButton | script.js:119 | without a close button neither copy wires backdrop or zoom/pan, the slide deck loses the reveal, and both still open thumbnails when the modal and the image exist |
| Tilt.TiltAt | script.js:39-58 | the pointer at the centre gives no rotation; `rotateY` is 20 times `percentX` and has its sign, `rotateX` is -20 times `percentY` and has the opposite sign |
| Tilt.TiltBounds | script.js:41-58 | inside the container both percentages lie in [-1, 1] and both rotations in [-20, 20] degrees |
| Tilt.TiltAtCorners | script.js:41-58 | at the corners the rotations reach the full 20 degrees, with opposite signs at opposite corners |
| Tilt.LayerOffsetBounds | script.js:66-72 | the offset `LayerOffset` of a layer is at most `40 * depth` px per axis, with Z `50 * depth`. A layer whose `data-depth` is missing or empty (`LayerDepth` falls back to 0.2) moves at most 8 px and sits 10 px forward |
| Tilt.Stage.constructor | script.js:65 | layers and stage start with their stylesheet transforms |
| Tilt.Stage.OnMouseMove | script.js:39-74 | the stage gets the rotations of `TiltAt`, and every layer gets `LayerOffset`: `(percentX*40*depth, percentY*40*depth, depth*50)` |
| Tilt.Stage.OnMouseLeave | script.js:76-87 | the stage rotation becomes (0, 0) and every layer's translation zero, except `chart-center-text` layers, which get Z 20 |
| FadeIn.FadeInObserver.constructor | script.js:28-33 | every element gets `fade-in` and is observed; none is visible |
| FadeIn.FadeInObserver.OnIntersection | script.js:19-26 | an element is visible afterwards iff it was or intersects in the batch, and it is unobserved in the same step; visible exactly when unobserved, so it is marked once and never loses `visible` |
| Hero.ParallaxOffsetMonotone | script.js:6-11 | `ParallaxOffset`, the offset a scroll event sets: for scroll positions in [0, 800) an offset is set; it moves at half the scroll speed, never goes down and stays in [0, 400) px |
| Hero.HeroBackground.constructor | script.js:5 | the background has no inline offset to begin with |
| Hero.HeroBackground.OnScroll | script.js:6-11 | the offset becomes `scrollY * 0.5` when `#hero` exists and `scrollY < 800`, and keeps its previous value otherwise |

## Left out

- DOM querying, `classList`, `style` and `textContent` as real DOM. The classes and styles the handlers set are fields.
- `addEventListener` and `removeEventListener` themselves. Handlers that were never attached appear as `Lightbox.Wiring` flags. The document-level drag listeners appear as `tracking`.
- IntersectionObserver geometry: thresholds 0.5 and 0.1, the root, the root margin. Whether an entry intersects is an input.
- `getBoundingClientRect`: rectangles are inputs.
- Wall-clock timing of `setTimeout` and `setInterval`. Pending timers fire in any order, so the model allows orderings a real clock would not.
- The CSS strings: the conic gradient, `perspective(...)`, `translate3d(...)`, cursor styles. The model keeps the numbers behind them.
- The nav-link smooth scrolling (presentation.js:90-102) and `console.log` (script.js:2). They are browser side effects with no state.
- IEEE double arithmetic: easing, tilt, pan and parallax use exact `real` values. The model states the mathematics, not the floating-point rounding.
- The `data-depth` attribute is taken as already converted to a number. JavaScript multiplies the attribute string, so a non-numeric attribute would give NaN; the model does not represent that.
- `script.js` with no `#security-chart-stage` or no `.stats-container` attaches no tilt handlers. The model has no `Tilt.Stage` in that case.
- `presentation.js` on a page with `#lightbox-modal` but without `#lightbox-img`: the handlers still have partial effects, which the model drops. `Setup.PresentationWiring` treats all of these handlers as unwired.
  - A thumbnail click sets `display: flex` and schedules the fade-in. It then throws at `modalImg.src` (presentation.js:115).
  - A close-button click, or a backdrop click, removes `show`. The backdrop handler is attached because setup throws only at presentation.js:146. After 300 ms the close timer sets `display: none` (presentation.js:125) and then throws at presentation.js:126.
- An IntersectionObserver batch is delivered as the given sequence of entries. The model does not restrict which targets the browser may report.
