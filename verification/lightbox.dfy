/**
 * The gallery window's full-size image viewer: clicking a thumbnail opens it on
 * that image; clicking the dark backdrop or the close button closes it, while a
 * click on the image itself does not propagate to the backdrop.
 */
module Lightbox {
  import opened Wrappers

  datatype Image = Image(id: int, url: string, caption: string)

  datatype LightboxState = LightboxState(selected: Option<Image>, open: bool)

  const Initial := LightboxState(None, false)

  /** The image on screen, if the viewer is showing one: it must be open and have an image. */
  function Shown(s: LightboxState): (r: Option<Image>)
    ensures r.Some? <==> s.open && s.selected.Some?
    ensures r.Some? ==> r == s.selected
  {
    if s.open then s.selected else None
  }

  /** `handleImageClick`: select the image and open the viewer. */
  function ImageClicked(s: LightboxState, image: Image): (r: LightboxState)
    ensures Shown(r) == Some(image)
  {
    LightboxState(Some(image), true)
  }

  /** `closeLightbox`: close the viewer and forget the image. */
  function Close(s: LightboxState): (r: LightboxState)
    ensures Shown(r).None? && r.selected.None?
  {
    LightboxState(None, false)
  }

  /** Where a click inside the open viewer lands. */
  datatype ViewerClick = OnBackdrop | OnImage | OnCloseButton

  /** Clicks on the backdrop or the close button close the viewer; a click on the image changes nothing. */
  function ViewerClicked(s: LightboxState, target: ViewerClick): (r: LightboxState)
    ensures target == OnImage ==> r == s
    ensures target != OnImage ==> r == Initial
  {
    if target == OnImage then s else Close(s)
  }

  /** The viewer is open exactly when an image is selected. */
  predicate Consistent(s: LightboxState)
  {
    s.open <==> s.selected.Some?
  }

  /** Starting closed, every sequence of thumbnail and viewer clicks keeps the viewer consistent. */
  lemma OperationsKeepConsistent(s: LightboxState, image: Image, target: ViewerClick)
    requires Consistent(s)
    ensures Consistent(ImageClicked(s, image)) && Consistent(Close(s)) && Consistent(ViewerClicked(s, target))
    ensures Shown(s) == s.selected
  {
  }

  /** Opening an image and closing the viewer again leaves it as it started. */
  lemma OpenThenCloseIsInitial(image: Image)
    ensures Close(ImageClicked(Initial, image)) == Initial
    ensures Shown(Initial).None?
  {
  }
}
