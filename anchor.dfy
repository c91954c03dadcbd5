/**
 * Anchoring a block of text inside a rectangle. A `Position` pins one axis
 * of the block to an edge of the rectangle or centres it there, and slides
 * the block along the other axis by a percentage of the space the block
 * leaves free; `Any` slides both axes.
 */
module Anchor {
  import opened Glyphs

  /**
   * A relative position along an edge, in percent: 0 is the start (left or
   * top), 100 the end (right or bottom). Values outside [0, 100] are allowed.
   */
  datatype EdgePosition = EdgePosition(percent: real)

  /** The named edge positions. */
  const Left := EdgePosition(0.0)
  const Top := EdgePosition(0.0)
  const Center := EdgePosition(50.0)
  const Right := EdgePosition(100.0)
  const Bottom := EdgePosition(100.0)

  datatype Position =
    | HorizontalTop(edge: EdgePosition)
    | HorizontalCenter(edge: EdgePosition)
    | HorizontalBottom(edge: EdgePosition)
    | VerticalLeft(edge: EdgePosition)
    | VerticalCenter(edge: EdgePosition)
    | VerticalRight(edge: EdgePosition)
    | Any(horizontal: EdgePosition, vertical: EdgePosition)

  /**
   * The rectangle the text is placed in. `right` and `bottom` are taken as
   * given: how they relate to `left + width` and `top + height` is decided
   * by the rectangle type, which is not part of this model.
   */
  datatype Rect = Rect(left: int, top: int, width: nat, height: nat, right: int, bottom: int)

  /**
   * `n as real * e`: a whole number of pixels times a real factor, written
   * as `n`-fold addition so that its properties follow by induction on `n`
   * in linear arithmetic. `TimesIsProduct` shows that it is the product.
   */
  function Times(n: nat, e: real): (t: real)
  {
    if n == 0 then 0.0 else Times(n - 1, e) + e
  }

  lemma {:induction false} TimesIsProduct(n: nat, e: real)
    ensures Times(n, e) == n as real * e
  {
    if n != 0 {
      TimesIsProduct(n - 1, e);
      assert (n - 1) as real * e + e == n as real * e;
    }
  }

  /**
   * The part of the free space `rectangleSize - contentSize` that lies before
   * the content when it sits at `relative` along the edge, truncated to a
   * whole pixel.
   */
  function CalculateCenter(rectangleSize: nat, contentSize: nat, relative: EdgePosition): (r: nat)
    requires contentSize <= rectangleSize
    ensures 0.0 <= relative.percent ==>
      r as real <= Times(rectangleSize - contentSize, relative.percent) / 100.0 < r as real + 1.0
    ensures relative.percent <= 0.0 ==> r == 0
    ensures relative.percent <= 100.0 ==> r <= rectangleSize - contentSize
  {
    SlideBounds(rectangleSize - contentSize, relative.percent);
    Truncate(Times(rectangleSize - contentSize, relative.percent) / 100.0)
  }

  lemma SlideBounds(free: nat, e: real)
    ensures var v := Times(free, e) / 100.0;
      (0.0 <= e ==> 0.0 <= v) && (e <= 0.0 ==> v <= 0.0) && (e <= 100.0 ==> Truncate(v) <= free)
  {
    TimesSign(free, e);
    if e <= 100.0 {
      TimesBelow(free, e);
      TruncateMonotone(Times(free, e) / 100.0, free as real);
      TruncateWhole(free);
    }
  }

  lemma {:induction false} TimesSign(n: nat, e: real)
    ensures 0.0 <= e ==> 0.0 <= Times(n, e)
    ensures e <= 0.0 ==> Times(n, e) <= 0.0
  {
    if n != 0 {
      TimesSign(n - 1, e);
    }
  }

  lemma {:induction false} TimesBelow(n: nat, e: real)
    ensures e <= 100.0 ==> Times(n, e) <= 100.0 * n as real
  {
    if n != 0 {
      TimesBelow(n - 1, e);
    }
  }

  lemma {:induction false} TimesMonotone(n: nat, e1: real, e2: real)
    requires e1 <= e2
    ensures Times(n, e1) <= Times(n, e2)
  {
    if n != 0 {
      TimesMonotone(n - 1, e1, e2);
    }
  }

  lemma TruncateMonotone(u: real, v: real)
    ensures u <= v ==> Truncate(u) <= Truncate(v)
  {
    if 0.0 < u <= v {
      assert Truncate(u) as real <= u <= v < Truncate(v) as real + 1.0;
      assert Truncate(u) < Truncate(v) + 1;
    }
  }

  lemma TruncateWhole(n: nat)
    ensures Truncate(n as real) == n
  {
    var r := Truncate(n as real);
    assert r as real <= n as real < r as real + 1.0;
  }

  /** Whether the arithmetic of `FindTextAreaCoordinates` stays unsigned for this input. */
  predicate Admissible(position: Position, rect: Rect, width: nat, height: nat)
  {
    match position
    case HorizontalTop(_) => 0 <= rect.left && width <= rect.width && 0 <= rect.top
    case HorizontalCenter(_) =>
      0 <= rect.left && width <= rect.width && 0 <= rect.top && height <= rect.height
    case HorizontalBottom(_) => 0 <= rect.left && width <= rect.width && height <= rect.bottom
    case VerticalLeft(_) => 0 <= rect.left && 0 <= rect.top && height <= rect.height
    case VerticalCenter(_) =>
      0 <= rect.left && width <= rect.width && 0 <= rect.top && height <= rect.height
    case VerticalRight(_) => width <= rect.right && 0 <= rect.top && height <= rect.height
    case Any(_, _) =>
      0 <= rect.left && width <= rect.width && 0 <= rect.top && height <= rect.height
  }

  /** Every edge position inside `position` lies in [0, 100]. */
  predicate EdgesWithin(position: Position)
  {
    match position
    case Any(h, v) => 0.0 <= h.percent <= 100.0 && 0.0 <= v.percent <= 100.0
    case _ => 0.0 <= position.edge.percent <= 100.0
  }

  /**
   * Content of length `size` placed at `at` on a side of length `length`
   * starting at `start` has equal padding on both sides, up to one pixel,
   * with the odd pixel after it.
   */
  ghost predicate Balanced(start: int, length: nat, at: int, size: nat)
  {
    var before := at - start;
    var after := start + length - (at + size);
    0 <= before <= after <= before + 1
  }

  /**
   * Content starting at `at` on a side starting at `start` has been slid by
   * `e` percent of the free space `free`, truncated to a whole pixel: not at
   * all for `e <= 0`.
   */
  ghost predicate SlidBy(start: int, at: int, free: nat, e: EdgePosition)
  {
    (0.0 <= e.percent ==> (at - start) as real <= Times(free, e.percent) / 100.0 < (at - start) as real + 1.0) &&
    (e.percent <= 0.0 ==> at == start)
  }

  /**
   * The top-left corner at which content of `width` × `height` is drawn so
   * that it sits at `position` inside `rect`.
   */
  function FindTextAreaCoordinates(position: Position, rect: Rect, width: nat, height: nat): (r: (nat, nat))
    requires Admissible(position, rect, width, height)
    ensures position.HorizontalTop? ==> r.1 == rect.top
    ensures position.HorizontalBottom? ==> r.1 + height == rect.bottom
    ensures position.VerticalLeft? ==> r.0 == rect.left
    ensures position.VerticalRight? ==> r.0 + width == rect.right
    ensures position.HorizontalCenter? ==> Balanced(rect.top, rect.height, r.1, height)
    ensures position.VerticalCenter? ==> Balanced(rect.left, rect.width, r.0, width)
    ensures position.HorizontalTop? || position.HorizontalCenter? || position.HorizontalBottom? ==>
      width <= rect.width && SlidBy(rect.left, r.0, rect.width - width, position.edge)
    ensures position.VerticalLeft? || position.VerticalCenter? || position.VerticalRight? ==>
      height <= rect.height && SlidBy(rect.top, r.1, rect.height - height, position.edge)
    ensures position.Any? ==>
      width <= rect.width && SlidBy(rect.left, r.0, rect.width - width, position.horizontal) &&
      height <= rect.height && SlidBy(rect.top, r.1, rect.height - height, position.vertical)
    ensures !position.VerticalRight? && width <= rect.width && EdgesWithin(position) ==>
      rect.left <= r.0 && r.0 + width <= rect.left + rect.width
    ensures !position.HorizontalBottom? && height <= rect.height && EdgesWithin(position) ==>
      rect.top <= r.1 && r.1 + height <= rect.top + rect.height
  {
    match position
    case HorizontalCenter(e) =>
      (rect.left + CalculateCenter(rect.width, width, e), rect.top + (rect.height - height) / 2)
    case HorizontalBottom(e) =>
      (rect.left + CalculateCenter(rect.width, width, e), rect.bottom - height)
    case HorizontalTop(e) =>
      (rect.left + CalculateCenter(rect.width, width, e), rect.top)
    case VerticalCenter(e) =>
      (rect.left + (rect.width - width) / 2, rect.top + CalculateCenter(rect.height, height, e))
    case VerticalRight(e) =>
      (rect.right - width, rect.top + CalculateCenter(rect.height, height, e))
    case VerticalLeft(e) =>
      (rect.left, rect.top + CalculateCenter(rect.height, height, e))
    case Any(h, v) =>
      (rect.left + CalculateCenter(rect.width, width, h), rect.top + CalculateCenter(rect.height, height, v))
  }

  /**
   * The named edge positions: the start of an edge leaves all free space
   * after the content, the end leaves it all before, and the centre splits
   * it in two, the odd pixel going after the content.
   */
  lemma NamedEdges(rectangleSize: nat, contentSize: nat)
    requires contentSize <= rectangleSize
    ensures CalculateCenter(rectangleSize, contentSize, Left) == 0
    ensures CalculateCenter(rectangleSize, contentSize, Top) == 0
    ensures CalculateCenter(rectangleSize, contentSize, Right) == rectangleSize - contentSize
    ensures CalculateCenter(rectangleSize, contentSize, Bottom) == rectangleSize - contentSize
    ensures CalculateCenter(rectangleSize, contentSize, Center) == (rectangleSize - contentSize) / 2
  {
    var free := rectangleSize - contentSize;
    TimesIsProduct(free, 0.0);
    TruncateUnique(Times(free, 0.0) / 100.0, 0);
    TimesIsProduct(free, 100.0);
    TruncateUnique(Times(free, 100.0) / 100.0, free);
    TimesIsProduct(free, 50.0);
    var q, rem := free / 2, free % 2;
    assert Times(free, 50.0) / 100.0 == q as real + rem as real / 2.0;
    TruncateUnique(Times(free, 50.0) / 100.0, q);
  }

  lemma TruncateUnique(v: real, n: nat)
    requires n as real <= v < n as real + 1.0
    ensures Truncate(v) == n
  {
  }

  /** Sliding further along the edge never moves the content back. */
  lemma CalculateCenterMonotone(rectangleSize: nat, contentSize: nat, e1: EdgePosition, e2: EdgePosition)
    requires contentSize <= rectangleSize
    requires e1.percent <= e2.percent
    ensures CalculateCenter(rectangleSize, contentSize, e1) <= CalculateCenter(rectangleSize, contentSize, e2)
  {
    var free := rectangleSize - contentSize;
    TimesMonotone(free, e1.percent, e2.percent);
    TruncateMonotone(Times(free, e1.percent) / 100.0, Times(free, e2.percent) / 100.0);
  }

  /**
   * A position pinned to the start or the centre of an axis is `Any` with
   * the matching named edge on that axis.
   */
  lemma PositionsAreAny(rect: Rect, width: nat, height: nat, e: EdgePosition)
    requires 0 <= rect.left && 0 <= rect.top && width <= rect.width && height <= rect.height
    ensures FindTextAreaCoordinates(HorizontalTop(e), rect, width, height)
         == FindTextAreaCoordinates(Any(e, Top), rect, width, height)
    ensures FindTextAreaCoordinates(HorizontalCenter(e), rect, width, height)
         == FindTextAreaCoordinates(Any(e, Center), rect, width, height)
    ensures FindTextAreaCoordinates(VerticalLeft(e), rect, width, height)
         == FindTextAreaCoordinates(Any(Left, e), rect, width, height)
    ensures FindTextAreaCoordinates(VerticalCenter(e), rect, width, height)
         == FindTextAreaCoordinates(Any(Center, e), rect, width, height)
  {
    NamedEdges(rect.width, width);
    NamedEdges(rect.height, height);
  }

  /**
   * A position pinned to the right or bottom edge is `Any` with the end edge
   * on that axis, moved by exactly how far `rect.right` lies from
   * `left + width`, or `rect.bottom` from `top + height`.
   */
  lemma EndPositionsAreAny(rect: Rect, width: nat, height: nat, e: EdgePosition)
    requires 0 <= rect.left && 0 <= rect.top && width <= rect.width && height <= rect.height
    requires width <= rect.right && height <= rect.bottom
    ensures FindTextAreaCoordinates(HorizontalBottom(e), rect, width, height).0
         == FindTextAreaCoordinates(Any(e, Bottom), rect, width, height).0
    ensures FindTextAreaCoordinates(HorizontalBottom(e), rect, width, height).1
         == FindTextAreaCoordinates(Any(e, Bottom), rect, width, height).1 + (rect.bottom - (rect.top + rect.height))
    ensures FindTextAreaCoordinates(VerticalRight(e), rect, width, height).0
         == FindTextAreaCoordinates(Any(Right, e), rect, width, height).0 + (rect.right - (rect.left + rect.width))
    ensures FindTextAreaCoordinates(VerticalRight(e), rect, width, height).1
         == FindTextAreaCoordinates(Any(Right, e), rect, width, height).1
  {
    NamedEdges(rect.width, width);
    NamedEdges(rect.height, height);
  }

  /**
   * A 20 × 10 block in a 100 × 50 rectangle at the origin: centred on the
   * middle horizontal line it starts at (40, 20), and in the top-left corner
   * at (0, 0).
   */
  lemma CenteredBlockExample(right: int, bottom: int)
    ensures FindTextAreaCoordinates(HorizontalCenter(Center), Rect(0, 0, 100, 50, right, bottom), 20, 10) == (40, 20)
    ensures FindTextAreaCoordinates(Any(Left, Top), Rect(0, 0, 100, 50, right, bottom), 20, 10) == (0, 0)
  {
    NamedEdges(100, 20);
  }
}
