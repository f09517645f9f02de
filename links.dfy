/**
 * The `a` elements the embedding parsers walk over, and where an embed for
 * one of them goes.
 */
module Links {
  import opened Wrappers

  /**
   * An `a` element: its `target`, its classes, its `href` and its text, and
   * where it sits: the number of its nearest `p` ancestor, if any, and of
   * its parent.
   */
  datatype LinkEl = LinkEl(target: Option<string>, classes: seq<string>, href: Option<string>, text: string,
                           paragraph: Option<nat>, parent: nat)

  /** `Dom.getAncestorByTagName(linkEl, "p")`, or `linkEl.parentNode` when there is none. */
  function Container(l: LinkEl): nat {
    if l.paragraph.Some? then l.paragraph.value else l.parent
  }
}
