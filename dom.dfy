/** The parts of a DOM element that the router reads and writes: its
    `data-*` attributes, its text content, the anchor properties `href`,
    `target` and `rel`, the click handlers it registers, and the anchors
    the store grid appends to it. */
module Dom {
  import opened Js
  import opened Links

  /** An anchor the grid creates and appends: its `href`, `target`, `rel`,
      `className`, text and `data-store` attribute. */
  datatype Link = Link(href: Url, target: string, rel: string, className: string, text: string, store: string)

  /** The fields of an element that the router may write, as one value. */
  datatype ElementState = ElementState(
    attrs: map<string, string>, text: string, href: Option<Url>, target: string, rel: string,
    handlers: seq<Url>, children: seq<Link>)

  class Element {
    /** `tagName === "A"`. */
    const isAnchor: bool
    /** The element's attributes; `dataset.amazonFoo` is `data-amazon-foo`. */
    var attrs: map<string, string>
    /** `textContent`. */
    var text: string
    /** The `href` property, None while this module has not written one. */
    var href: Option<Url>
    var target: string
    var rel: string
    /** The click handlers added, each opening its URL with "_blank" and
        "noopener". */
    var handlers: seq<Url>
    /** The child anchors, in document order. */
    var children: seq<Link>

    constructor (isAnchor: bool, attrs: map<string, string>, text: string)
      ensures this.isAnchor == isAnchor && this.attrs == attrs && this.text == text
      ensures href == None && target == "" && rel == "" && handlers == [] && children == []
    {
      this.isAnchor := isAnchor;
      this.attrs := attrs;
      this.text := text;
      href := None;
      target := "";
      rel := "";
      handlers := [];
      children := [];
    }

    /** The element's writable fields as they stand now. */
    function State(): ElementState
      reads this
    {
      ElementState(attrs, text, href, target, rel, handlers, children)
    }
  }

  /** A dataset entry read with `||`: an absent attribute is "". */
  function Data(attrs: map<string, string>, name: string): string
  {
    if name in attrs then attrs[name] else ""
  }

  /** A dataset entry read with `??`: an absent attribute is None, while a
      present empty one is Some(""). */
  function DataOpt(attrs: map<string, string>, name: string): Option<string>
  {
    if name in attrs then Some(attrs[name]) else None
  }
}
