/**
 * A click on carousel item i runs two listeners in the order they were
 * registered: the rotation listener (ime.js:179-184) and then the lightbox
 * listener (ime.js:220-264). The lightbox's guard at ime.js:225 therefore sees
 * the classes the rotation has just assigned.
 */
module ItemClick {
  import opened Carousel
  import opened Lightbox
  import opened Wrappers

  /**
   * When the lightbox guard runs, a clicked side item already carries `active`:
   * before the rotation it did not, afterwards it does.
   */
  lemma SideItemActiveAfterRotation(i: nat, cur: nat, n: nat)
    requires cur < n && i < n && i != cur
    ensures !Render(i, cur, n).active
    ensures Render(i, i, n).active
  {
  }

  /** The click as the page runs it: rotate, then open the lightbox on whatever is now active. */
  method ClickCarouselItem(c: Carousel3D, lb: Lightbox, i: nat, media: Media) returns (ok: bool)
    requires i < c.items.Length && c.Rendered() && lb.Valid()
    modifies c, c.items, lb
    ensures c.currentIndex == i && c.Rendered()
    ensures lb.Valid()
    ensures media != Video(None) ==> ok && lb.open
  {
    c.ClickItem(i);
    ok := lb.Open(true, c.items[i].active, media);
  }

  /**
   * The click as the comment at ime.js:223-224 describes it: the guard looks at
   * the item as it was before this click rotated it, so a side item only
   * rotates into the centre and the lightbox stays as it was.
   */
  method ClickCarouselItemIntended(c: Carousel3D, lb: Lightbox, i: nat, media: Media) returns (ok: bool)
    requires i < c.items.Length && c.Rendered() && lb.Valid()
    modifies c, c.items, lb
    ensures c.currentIndex == i && c.Rendered()
    ensures lb.Valid()
    ensures old(c.currentIndex) != i ==> ok && unchanged(lb)
    ensures old(c.currentIndex) == i && media != Video(None) ==> ok && lb.open
  {
    var wasActive := c.items[i].active;
    c.ClickItem(i);
    ok := lb.Open(true, wasActive, media);
  }
}
