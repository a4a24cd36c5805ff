/** What the popups show: media records, the two rendering slots (an
    `<img>` and a `<video>`) and the inline `display` / timer state the
    script writes on popup elements. */
module Media {

  /** The `type` field of a media record. */
  datatype Kind = Image | Video

  /** One displayable unit: `{type, src, alt}`. */
  datatype MediaItem = MediaItem(kind: Kind, src: string, alt: string)

  /** The inline `style.display` of a popup element. `Unstyled` is the empty
      string the element has before the script first writes it; `Hidden` is
      'none'; `Flex` is 'flex'. */
  datatype Display = Unstyled | Hidden | Flex

  /** The `autoRotationTimer` handle kept on a popup element: absent (null or
      undefined), a running interval, or an interval that was cleared while
      its handle was left in place. No code in this model starts one. */
  datatype Timer = NoTimer | Running | Cleared

  /** The `key` of a keydown event, as far as the popups' listeners tell
      keys apart. */
  datatype Key = Escape | ArrowLeft | ArrowRight | OtherKey

  /** One rendering slot: hidden, or visible with a source attached. */
  datatype Slot = Off | On(src: string)

  /** The popup's rendering area: the image slot and its alt text, the video
      slot, and the caption (title) line. */
  datatype Stage = Stage(image: Slot, imageAlt: string, video: Slot, caption: string)

  const Blank: Stage := Stage(Off, "", Off, "")

  /** The stage shows `m`: the slot of `m`'s kind is visible with `m`'s
      source and the other slot is hidden. */
  predicate Shows(s: Stage, m: MediaItem) {
    match m.kind
    case Image => s.image == On(m.src) && s.video == Off
    case Video => s.video == On(m.src) && s.image == Off
  }

  /** Renders one media record: both slots are hidden first, then the one
      matching the record's kind is given its source and made visible; an
      image also gets `alt` as its alt text. The caption is left alone. */
  function Render(s: Stage, m: MediaItem, alt: string): (r: Stage)
    ensures Shows(r, m)
    ensures r.image.On? != r.video.On?
    ensures r.caption == s.caption
    ensures m.kind == Image ==> r.imageAlt == alt
    ensures m.kind == Video ==> r.imageAlt == s.imageAlt
  {
    var cleared := s.(image := Off, video := Off);
    match m.kind
    case Image => cleared.(image := On(m.src), imageAlt := alt)
    case Video => cleared.(video := On(m.src))
  }
}
