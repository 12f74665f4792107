/**
 * The lightbox of ime.js (lines 212-283): one shared overlay (`image-modal`)
 * holding an image (`modal-img`) and a video (`modal-video`). A click on a
 * `.team-photo` or on the active `.c-item` opens it with the element's video
 * or background image; a click on the overlay or its media closes it.
 */
module Lightbox {
  import opened Wrappers
  import opened BackgroundUrl

  /** An inline `style.display`: never written yet, `block`, or `none`. */
  datatype Display = Unset | Shown | Hidden

  /**
   * What the clicked element holds: a `<video>` whose `<source>` (if any) gives
   * the address, or no video and a computed `background-image` value.
   */
  datatype Media = Video(source: Option<string>) | Background(image: string)

  /** Where a click on the overlay landed. */
  datatype Target = Overlay | ModalImage | ModalVideo | Elsewhere

  /** The one timer closing schedules: clear both sources after `delay` ms. */
  datatype Pending = ClearSources(delay: nat)

  /** The image that a `background-image` value yields: the first `url(...)` capture, when non-empty. */
  function ImageAddress(bg: string): (r: Option<string>)
    ensures r.Some? ==> r.value != "" && QuoteFree(r.value)
    ensures bg == "" || bg == "none" ==> r.None?
  {
    if bg == "" || bg == "none" then None
    else match FindUrl(bg)
      case Some(m) => if m.url != "" then Some(m.url) else None
      case None => None
  }

  /** Every non-empty quote-free address in `url("...")` form reaches the image element. */
  lemma ImageAddressOfQuotedUrl(u: string)
    requires u != "" && QuoteFree(u)
    ensures ImageAddress(Wrap("\"", u, "\"")) == Some(u)
  {
    ExtractWrapped("\"", u, "\"");
  }

  class Lightbox {
    var open: bool
    var imgDisplay: Display
    var videoDisplay: Display
    var imgSrc: string
    var videoSrc: string
    var videoPlaying: bool
    /** The video's `currentTime`, as far as the handlers set it; playback progress is the browser's. */
    var videoTime: real

    /** Never image and video shown at once. */
    ghost predicate Valid()
      reads this
    {
      !(imgDisplay == Shown && videoDisplay == Shown)
    }

    constructor ()
      ensures Valid() && !open && imgDisplay == Unset && videoDisplay == Unset
      ensures imgSrc == "" && videoSrc == "" && !videoPlaying && videoTime == 0.0
    {
      open, imgDisplay, videoDisplay := false, Unset, Unset;
      imgSrc, videoSrc := "", "";
      videoPlaying, videoTime := false, 0.0;
    }

    /**
     * The click listener on `.team-photo, .c-item`. `isCarouselItem` and
     * `itemActive` are the clicked element's classes when the listener runs.
     * A video without a `<source>` makes `.src` of null throw: ok is false and
     * nothing has changed.
     */
    method Open(isCarouselItem: bool, itemActive: bool, media: Media) returns (ok: bool)
      requires Valid()
      modifies this
      ensures Valid() && videoTime == old(videoTime)
      ensures isCarouselItem && !itemActive ==> ok && unchanged(this)
      ensures !(isCarouselItem && !itemActive) ==> match media
        case Video(None) =>
          !ok && unchanged(this)
        case Video(Some(src)) =>
          ok && open && imgDisplay == Hidden && videoDisplay == Shown && videoSrc == src &&
          videoPlaying && imgSrc == old(imgSrc)
        case Background(bg) =>
          ok && open && videoSrc == old(videoSrc) &&
          match ImageAddress(bg)
          case Some(u) =>
            videoDisplay == Hidden && imgDisplay == Shown && imgSrc == u && !videoPlaying
          case None =>
            imgDisplay == old(imgDisplay) && videoDisplay == old(videoDisplay) &&
            imgSrc == old(imgSrc) && videoPlaying == old(videoPlaying)
    {
      ok := true;
      if isCarouselItem && !itemActive {
        return;
      }
      match media {
        case Video(source) =>
          if source.None? {
            ok := false;
            return;
          }
          imgDisplay := Hidden;
          videoDisplay := Shown;
          videoSrc := source.value;
          videoPlaying := true;
        case Background(bg) =>
          var address := ImageAddress(bg);
          if address.Some? {
            videoPlaying := false;
            videoDisplay := Hidden;
            imgDisplay := Shown;
            imgSrc := address.value;
          }
      }
      open := true;
    }

    /**
     * The overlay's click listener: only a click on the overlay, the image or
     * the video closes it, pausing and rewinding the video at once and leaving
     * the clearing of both sources to a timer 300 ms later.
     */
    method Close(target: Target) returns (scheduled: seq<Pending>)
      requires Valid()
      modifies this
      ensures Valid()
      ensures target == Elsewhere ==> unchanged(this) && scheduled == []
      ensures target != Elsewhere ==>
        !open && !videoPlaying && videoTime == 0.0 && scheduled == [ClearSources(300)] &&
        imgSrc == old(imgSrc) && videoSrc == old(videoSrc) &&
        imgDisplay == old(imgDisplay) && videoDisplay == old(videoDisplay)
    {
      scheduled := [];
      if target != Elsewhere {
        videoPlaying := false;
        videoTime := 0.0;
        open := false;
        scheduled := [ClearSources(300)];
      }
    }

    /** The timer closing scheduled fires. */
    method Fire(p: Pending)
      requires Valid()
      modifies this
      ensures Valid() && imgSrc == "" && videoSrc == ""
      ensures open == old(open) && imgDisplay == old(imgDisplay) && videoDisplay == old(videoDisplay)
      ensures videoPlaying == old(videoPlaying) && videoTime == old(videoTime)
    {
      imgSrc := "";
      videoSrc := "";
    }
  }
}
