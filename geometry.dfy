/** Integer rectangles with the overlap and hit tests of pygame's Rect. */
module Geometry {

  /** An axis-aligned rectangle: top-left corner (x, y), y growing downwards. */
  datatype Rect = Rect(x: int, y: int, width: nat, height: nat) {
    function Left(): int { x }
    function Right(): int { x + width }
    function Top(): int { y }
    function Bottom(): int { y + height }

    /** The same rectangle moved by (dx, dy). */
    function Moved(dx: int, dy: int): (r: Rect)
      ensures r.width == width && r.height == height
      ensures r.Left() - Left() == dx && r.Top() - Top() == dy
    {
      Rect(x + dx, y + dy, width, height)
    }
  }

  /** Rect.colliderect: the interiors intersect; a rectangle of zero width or
      height collides with nothing. */
  predicate Overlaps(a: Rect, b: Rect) {
    && a.width > 0 && a.height > 0 && b.width > 0 && b.height > 0
    && a.Left() < b.Right() && b.Left() < a.Right()
    && a.Top() < b.Bottom() && b.Top() < a.Bottom()
  }

  /** Rect.collidepoint: the left and top edges are inside, the right and
      bottom edges are not. */
  predicate ContainsPoint(r: Rect, px: int, py: int) {
    r.Left() <= px < r.Right() && r.Top() <= py < r.Bottom()
  }

  /** Two rectangles separated horizontally or vertically do not overlap. */
  lemma SeparatedDoNotOverlap(a: Rect, b: Rect)
    requires a.Right() <= b.Left() || b.Right() <= a.Left() || a.Bottom() <= b.Top() || b.Bottom() <= a.Top()
    ensures !Overlaps(a, b) && !Overlaps(b, a)
  {
  }

  /** Does some rectangle of `rs` overlap `r`?  (pygame.sprite.spritecollideany) */
  predicate AnyOverlap(r: Rect, rs: seq<Rect>) {
    exists k :: 0 <= k < |rs| && Overlaps(r, rs[k])
  }
}
