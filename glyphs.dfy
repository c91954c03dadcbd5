/**
 * The glyph data that the text drawing code receives from the font
 * rasterizer, reduced to what the drawing and sizing code looks at, and the
 * float-to-unsigned cast that the size computations end with.
 */
module Glyphs {

  datatype Option<T> = None | Some(value: T)

  /** An integer pixel position. */
  datatype Point = Point(x: int, y: int)

  /**
   * A pixel-aligned bounding box `[min.x, max.x) × [min.y, max.y)`, relative
   * to the origin the layout placed the glyph at.
   */
  datatype PixelBox = PixelBox(min: Point, max: Point)

  /**
   * One coverage sample reported by the rasterizer for a glyph: local column
   * `gx`, local row `gy` (both measured from the box's top-left corner) and
   * the coverage `gv`, expected in [0, 1].
   */
  datatype Sample = Sample(gx: nat, gy: nat, gv: real)

  /**
   * A positioned glyph. `bbox` is its pixel bounding box (absent for glyphs
   * that cover no pixel, such as a space), `samples` is what the rasterizer
   * reports for it, in the order it reports them, `advance` its horizontal
   * advance width, and `ascent`/`descent` the vertical metrics of its font at
   * its scale.
   */
  datatype Glyph = Glyph(
    bbox: Option<PixelBox>,
    samples: seq<Sample>,
    advance: real,
    ascent: real,
    descent: real)

  /** The axis a bounding-box extent is read on. */
  datatype Axis = Horizontal | Vertical

  /** The far edge of a box on an axis: `max.x` or `max.y`. */
  function FarEdge(b: PixelBox, a: Axis): (e: int)
  {
    match a
    case Horizontal => b.max.x
    case Vertical => b.max.y
  }

  function Max(a: int, b: int): (m: int)
  {
    if a < b then b else a
  }

  function Min(a: int, b: int): (m: int)
  {
    if a < b then a else b
  }

  /**
   * A float converted to an unsigned integer: truncation toward zero, with
   * every value at or below zero giving 0.
   */
  function Truncate(v: real): (r: nat)
    ensures v <= 0.0 ==> r == 0
    ensures 0.0 <= v ==> r as real <= v < r as real + 1.0
  {
    if v <= 0.0 then 0 else v.Floor
  }

  /**
   * The glyphs of `gs` that have a pixel bounding box, in their order: the
   * glyphs for which the layout hands a box on to its callback.
   */
  function Boxed(gs: seq<Glyph>): (r: seq<Glyph>)
    ensures |r| <= |gs|
  {
    if gs == [] then []
    else
      var rest := Boxed(gs[..|gs| - 1]);
      var last := gs[|gs| - 1];
      if last.bbox.Some? then rest + [last] else rest
  }

  /** The glyphs kept are exactly the glyphs of `gs` that have a box. */
  lemma {:induction false} BoxedMembers(gs: seq<Glyph>)
    ensures forall g :: g in Boxed(gs) <==> g in gs && g.bbox.Some?
  {
    if gs != [] {
      var init, last := gs[..|gs| - 1], gs[|gs| - 1];
      BoxedMembers(init);
      assert gs == init + [last];
    }
  }

  /**
   * `Boxed` keeps each glyph in place: a single glyph is kept exactly when
   * it has a box, and the glyphs kept from `a + b` are those kept from `a`
   * followed by those kept from `b`. Together these fix order and
   * multiplicity.
   */
  lemma {:induction false} BoxedAppend(a: seq<Glyph>, b: seq<Glyph>)
    ensures Boxed(a + b) == Boxed(a) + Boxed(b)
  {
    if b == [] {
      assert a + b == a;
    } else {
      var init, last := b[..|b| - 1], b[|b| - 1];
      BoxedAppend(a, init);
      var ab := a + b;
      assert ab[..|ab| - 1] == a + init && ab[|ab| - 1] == last;
      assert Boxed(ab) == Boxed(a + init) + (if last.bbox.Some? then [last] else []);
      assert Boxed(b) == Boxed(init) + (if last.bbox.Some? then [last] else []);
    }
  }

  lemma BoxedSingleton(g: Glyph)
    ensures Boxed([g]) == if g.bbox.Some? then [g] else []
  {
    assert [g][..0] == [];
  }
}
