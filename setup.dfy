/** Which handlers the two scripts manage to attach at `DOMContentLoaded`,
    given which elements the page has. A statement that dereferences a missing
    element throws and ends the setup there: the handlers attached before it
    stay, none after it is attached. */
module Setup {
  import opened Lightbox

  /** The lightbox markup: `#lightbox-modal`, `#lightbox-img`, `.lightbox-close`
      and the number of `.gallery img` thumbnails. */
  datatype LightboxMarkup = LightboxMarkup(modal: bool, image: bool, closeButton: bool, thumbnails: nat)

  /** Every part of the lightbox markup is present. */
  predicate Complete(m: LightboxMarkup)
  {
    m.modal && m.image && m.closeButton && m.thumbnails > 0
  }

  /** `m2` has every element `m1` has. */
  predicate Includes(m1: LightboxMarkup, m2: LightboxMarkup)
  {
    (m1.modal ==> m2.modal) && (m1.image ==> m2.image) && (m1.closeButton ==> m2.closeButton) &&
    (m1.thumbnails > 0 ==> m2.thumbnails > 0)
  }

  /** Every handler wired in `w1` is wired in `w2`. */
  predicate WiredIn(w1: Wiring, w2: Wiring)
  {
    (w1.thumbnails ==> w2.thumbnails) && (w1.closeButton ==> w2.closeButton) &&
    (w1.backdrop ==> w2.backdrop) && (w1.zoomPan ==> w2.zoomPan)
  }

  /** The lightbox of the landing page, which checks the modal, the image and
      the thumbnails first. The close button is not checked: without it the
      setup throws after the thumbnail handlers and before the rest. */
  function ScriptWiring(m: LightboxMarkup): Wiring
  {
    var guarded := m.modal && m.image && m.thumbnails > 0;
    Wiring(guarded, guarded && m.closeButton, guarded && m.closeButton, guarded && m.closeButton)
  }

  /** The lightbox of the slide deck, which checks nothing: the thumbnail
      handlers are attached first; attaching the close button, the backdrop
      and the image handlers throws at the first missing element. */
  function PresentationWiring(m: LightboxMarkup): Wiring
  {
    var usable := m.modal && m.image;
    Wiring(usable && m.thumbnails > 0, usable && m.closeButton, usable && m.closeButton, usable && m.closeButton)
  }

  /** The progressive reveal comes after the lightbox in the slide deck's
      setup, so it is attached only when the agenda slide exists and the
      lightbox setup did not throw before it. */
  function RevealWired(m: LightboxMarkup, agendaSlide: bool): (r: bool)
    ensures r <==> agendaSlide && PresentationWiring(m).zoomPan
  {
    agendaSlide && m.modal && m.image && m.closeButton
  }

  /** The landing page's guard: none of its lightbox handlers is attached
      unless the modal, the image and at least one thumbnail exist, and with
      them the close button decides the rest. */
  lemma ScriptGuard(m: LightboxMarkup)
    ensures ScriptWiring(m) != Wiring(false, false, false, false) ==> m.modal && m.image && m.thumbnails > 0
    ensures m.modal && m.image && m.thumbnails > 0 ==>
              ScriptWiring(m) == Wiring(true, m.closeButton, m.closeButton, m.closeButton)
  {
  }

  /** The slide deck's setup: every handler needs the modal and the image to
      work, the zoom and the pan need the close button, and the thumbnails do
      not. */
  lemma PresentationOrder(m: LightboxMarkup)
    ensures PresentationWiring(m) != Wiring(false, false, false, false) ==> m.modal && m.image
    ensures PresentationWiring(m).zoomPan <==> m.modal && m.image && m.closeButton
    ensures PresentationWiring(m).backdrop == PresentationWiring(m).closeButton == PresentationWiring(m).zoomPan
  {
  }

  /** With the whole markup both copies attach every handler; the landing page
      differs only in attaching nothing when there is no thumbnail, where the
      slide deck still attaches the close, backdrop and image handlers. */
  lemma CopiesAgree(m: LightboxMarkup)
    ensures Complete(m) ==> ScriptWiring(m) == PresentationWiring(m) == Wiring(true, true, true, true)
    ensures m.thumbnails > 0 ==> ScriptWiring(m) == PresentationWiring(m)
    ensures m.thumbnails == 0 ==> ScriptWiring(m) == Wiring(false, false, false, false)
    ensures m.thumbnails == 0 && m.modal && m.image && m.closeButton ==>
              PresentationWiring(m) == Wiring(false, true, true, true)
    ensures WiredIn(ScriptWiring(m), PresentationWiring(m))
  {
  }

  /** More markup never loses a handler, in either copy. */
  lemma MoreMarkupWiresMore(m1: LightboxMarkup, m2: LightboxMarkup, agendaSlide: bool)
    requires Includes(m1, m2)
    ensures WiredIn(ScriptWiring(m1), ScriptWiring(m2))
    ensures WiredIn(PresentationWiring(m1), PresentationWiring(m2))
    ensures RevealWired(m1, agendaSlide) ==> RevealWired(m2, agendaSlide)
  {
  }

  /** Without a close button neither copy wires the zoom and the pan, and the
      slide deck loses its progressive reveal as well; both still open the
      viewer from a thumbnail when the modal and the image exist. */
  lemma MissingCloseButton(m: LightboxMarkup, agendaSlide: bool)
    requires !m.closeButton
    ensures !ScriptWiring(m).zoomPan && !PresentationWiring(m).zoomPan && !RevealWired(m, agendaSlide)
    ensures !ScriptWiring(m).backdrop && !PresentationWiring(m).backdrop
    ensures ScriptWiring(m).thumbnails == PresentationWiring(m).thumbnails == (m.modal && m.image && m.thumbnails > 0)
  {
  }
}
