/**
 * Compositing glyph coverage onto a pixel surface. The surface is an
 * `array2` indexed `[x, y]`; its pixel type `P` is abstract, and the channel
 * blend (`weighted_sum`) is the parameter `blend`, called as
 * `blend(old, color, 1 - coverage, coverage)`.
 *
 * What a draw does is specified pixel by pixel: every coverage sample becomes
 * a `Hit` at a surface coordinate, and the final value of pixel (i, j) is
 * its old value blended, in visiting order, with every hit that lands on
 * (i, j). A hit outside the surface lands on no pixel.
 */
module Compositing {
  import opened Glyphs
  import Sizing

  /** A sample translated to surface coordinates, with the colour it is drawn in. */
  datatype Hit<P> = Hit(x: int, y: int, coverage: real, color: P)

  /** The effect of one hit on the pixel at (i, j) whose current value is `p`. */
  function Step<P>(p: P, h: Hit<P>, i: int, j: int, blend: (P, P, real, real) -> P): (q: P)
  {
    if h.x == i && h.y == j then blend(p, h.color, 1.0 - h.coverage, h.coverage) else p
  }

  /** The value of pixel (i, j), starting from `p`, after `hits` are drawn in order. */
  function PixelAfter<P>(p: P, hits: seq<Hit<P>>, i: int, j: int, blend: (P, P, real, real) -> P): (q: P)
  {
    if hits == [] then p
    else Step(PixelAfter(p, hits[..|hits| - 1], i, j, blend), hits[|hits| - 1], i, j, blend)
  }

  /** Where a sample of a glyph with box `bb` drawn at origin (x, y) lands. */
  function Place<P>(s: Sample, bb: PixelBox, x: int, y: int, color: P): (hit: Hit<P>)
  {
    Hit(s.gx + bb.min.x + x, s.gy + bb.min.y + y, s.gv, color)
  }

  /** The hits of one boxed glyph drawn at origin (x, y), in sample order. */
  function GlyphHits<P>(g: Glyph, x: int, y: int, color: P): (hs: seq<Hit<P>>)
    requires g.bbox.Some?
  {
    seq(|g.samples|, k requires 0 <= k < |g.samples| => Place(g.samples[k], g.bbox.value, x, y, color))
  }

  /** The hits of a line of glyphs drawn at (x, y): boxed glyphs in order, unboxed ones skipped. */
  function RunHits<P>(gs: seq<Glyph>, x: int, y: int, color: P): (hs: seq<Hit<P>>)
  {
    if gs == [] then []
    else
      var last := gs[|gs| - 1];
      var rest := RunHits(gs[..|gs| - 1], x, y, color);
      if last.bbox.Some? then rest + GlyphHits(last, x, y, color) else rest
  }

  /** A hit moved by (dx, dy). */
  function Shift<P>(h: Hit<P>, dx: int, dy: int): (r: Hit<P>)
  {
    Hit(h.x + dx, h.y + dy, h.coverage, h.color)
  }

  /** `b` is `a` moved by (dx, dy), hit for hit. */
  ghost predicate Shifted<P>(a: seq<Hit<P>>, b: seq<Hit<P>>, dx: int, dy: int)
  {
    |a| == |b| && forall k :: 0 <= k < |a| ==> b[k] == Shift(a[k], dx, dy)
  }

  /** Moving every hit by (dx, dy) moves the picture by (dx, dy). */
  lemma {:induction false} PixelAfterShifted<P>(p: P, a: seq<Hit<P>>, b: seq<Hit<P>>, dx: int, dy: int,
                                                i: int, j: int, blend: (P, P, real, real) -> P)
    requires Shifted(a, b, dx, dy)
    ensures PixelAfter(p, b, i + dx, j + dy, blend) == PixelAfter(p, a, i, j, blend)
  {
    if a != [] {
      PixelAfterShifted(p, a[..|a| - 1], b[..|b| - 1], dx, dy, i, j, blend);
    }
  }

  /** The hits of a line drawn at (x + dx, y + dy) are its hits at (x, y) moved by (dx, dy). */
  lemma {:induction false} RunHitsShifted<P>(gs: seq<Glyph>, x: int, y: int, dx: int, dy: int, color: P)
    ensures Shifted(RunHits(gs, x, y, color), RunHits(gs, x + dx, y + dy, color), dx, dy)
  {
    if gs != [] {
      var last := gs[|gs| - 1];
      RunHitsShifted(gs[..|gs| - 1], x, y, dx, dy, color);
      if last.bbox.Some? {
        ShiftedAppend(RunHits(gs[..|gs| - 1], x, y, color), RunHits(gs[..|gs| - 1], x + dx, y + dy, color),
                      GlyphHits(last, x, y, color), GlyphHits(last, x + dx, y + dy, color), dx, dy);
      }
    }
  }

  lemma ShiftedAppend<P>(a0: seq<Hit<P>>, b0: seq<Hit<P>>, a1: seq<Hit<P>>, b1: seq<Hit<P>>, dx: int, dy: int)
    requires Shifted(a0, b0, dx, dy) && Shifted(a1, b1, dx, dy)
    ensures Shifted(a0 + a1, b0 + b1, dx, dy)
  {
    forall k | 0 <= k < |a0 + a1|
      ensures (b0 + b1)[k] == Shift((a0 + a1)[k], dx, dy)
    {
      if k < |a0| {
        assert (b0 + b1)[k] == b0[k] && (a0 + a1)[k] == a0[k];
      } else {
        assert (b0 + b1)[k] == b1[k - |a0|] && (a0 + a1)[k] == a1[k - |a0|];
      }
    }
  }

  /**
   * The origin of a draw only translates it: pixel (i + dx, j + dy) after
   * drawing a line at (x + dx, y + dy) is pixel (i, j) after drawing it at
   * (x, y), from the same starting value.
   */
  lemma DrawTranslates<P>(p: P, gs: seq<Glyph>, x: int, y: int, dx: int, dy: int, color: P,
                          i: int, j: int, blend: (P, P, real, real) -> P)
    ensures PixelAfter(p, RunHits(gs, x + dx, y + dy, color), i + dx, j + dy, blend)
         == PixelAfter(p, RunHits(gs, x, y, color), i, j, blend)
  {
    RunHitsShifted(gs, x, y, dx, dy, color);
    PixelAfterShifted(p, RunHits(gs, x, y, color), RunHits(gs, x + dx, y + dy, color), dx, dy, i, j, blend);
  }

  /** Drawing `a` and then `b` is drawing `a + b`. */
  lemma {:induction false} PixelAfterAppend<P>(p: P, a: seq<Hit<P>>, b: seq<Hit<P>>, i: int, j: int,
                                               blend: (P, P, real, real) -> P)
    ensures PixelAfter(PixelAfter(p, a, i, j, blend), b, i, j, blend) == PixelAfter(p, a + b, i, j, blend)
  {
    if b == [] {
      assert a + b == a;
    } else {
      var b0 := b[..|b| - 1];
      PixelAfterAppend(p, a, b0, i, j, blend);
      assert (a + b)[..|a + b| - 1] == a + b0;
    }
  }

  /** A pixel that no hit lands on keeps its value. */
  lemma {:induction false} NotHitUnchanged<P>(p: P, hits: seq<Hit<P>>, i: int, j: int,
                                              blend: (P, P, real, real) -> P)
    requires forall k :: 0 <= k < |hits| ==> hits[k].x != i || hits[k].y != j
    ensures PixelAfter(p, hits, i, j, blend) == p
  {
    if hits != [] {
      NotHitUnchanged(p, hits[..|hits| - 1], i, j, blend);
    }
  }

  /**
   * A pixel that exactly one hit lands on becomes the blend of its old value
   * with that hit's colour, weighted by that hit's coverage.
   */
  lemma {:induction false} HitOnceBlends<P>(p: P, hits: seq<Hit<P>>, n: nat, blend: (P, P, real, real) -> P)
    requires n < |hits|
    requires forall k :: 0 <= k < |hits| && k != n ==> hits[k].x != hits[n].x || hits[k].y != hits[n].y
    ensures PixelAfter(p, hits, hits[n].x, hits[n].y, blend)
         == blend(p, hits[n].color, 1.0 - hits[n].coverage, hits[n].coverage)
  {
    var h := hits[n];
    var before, after := hits[..n], hits[n + 1..];
    assert hits == before + [h] + after;
    NotHitUnchanged(p, before, h.x, h.y, blend);
    PixelAfterAppend(p, before, [h], h.x, h.y, blend);
    assert PixelAfter(p, before + [h], h.x, h.y, blend) == blend(p, h.color, 1.0 - h.coverage, h.coverage) by {
      assert (before + [h])[..|before|] == before;
    }
    NotHitUnchanged(PixelAfter(p, before + [h], h.x, h.y, blend), after, h.x, h.y, blend);
    PixelAfterAppend(p, before + [h], after, h.x, h.y, blend);
  }

  /**
   * Hits that all fall outside a `width` × `height` surface leave every pixel
   * of it as it was: a draw entirely off the surface changes nothing.
   */
  lemma OffSurfaceNoop<P>(p: P, hits: seq<Hit<P>>, width: nat, height: nat, i: int, j: int,
                          blend: (P, P, real, real) -> P)
    requires forall k :: 0 <= k < |hits| ==> !(0 <= hits[k].x < width && 0 <= hits[k].y < height)
    requires 0 <= i < width && 0 <= j < height
    ensures PixelAfter(p, hits, i, j, blend) == p
  {
    NotHitUnchanged(p, hits, i, j, blend);
  }

  /** Skipping the unboxed glyphs first does not change the hits of a line. */
  lemma {:induction false} RunHitsOfBoxed<P>(gs: seq<Glyph>, x: int, y: int, color: P)
    ensures RunHits(Boxed(gs), x, y, color) == RunHits(gs, x, y, color)
  {
    if gs != [] {
      var init, last := gs[..|gs| - 1], gs[|gs| - 1];
      RunHitsOfBoxed(init, x, y, color);
      if last.bbox.Some? {
        var b := Boxed(init) + [last];
        assert b[..|b| - 1] == Boxed(init);
      }
    }
  }

  /**
   * The drawing callback for one sample: translate it to the surface, and if
   * it lands on the surface, blend the pixel there with `color` by the
   * sample's coverage. Nothing else changes.
   */
  method DrawSample<P>(canvas: array2<P>, color: P, x: int, y: int, bb: PixelBox, s: Sample,
                       blend: (P, P, real, real) -> P)
    modifies canvas
    ensures forall i, j :: 0 <= i < canvas.Length0 && 0 <= j < canvas.Length1 ==>
      canvas[i, j] == (if i == s.gx + bb.min.x + x && j == s.gy + bb.min.y + y
                       then blend(old(canvas[i, j]), color, 1.0 - s.gv, s.gv)
                       else old(canvas[i, j]))
  {
    var gx := s.gx + bb.min.x;
    var gy := s.gy + bb.min.y;
    var imageX := gx + x;
    var imageY := gy + y;
    if 0 <= imageX < canvas.Length0 && 0 <= imageY < canvas.Length1 {
      var pixel := canvas[imageX, imageY];
      canvas[imageX, imageY] := blend(pixel, color, 1.0 - s.gv, s.gv);
    }
  }

  /** Draws every sample of one boxed glyph at origin (x, y). */
  method DrawGlyph<P>(canvas: array2<P>, color: P, x: int, y: int, g: Glyph, blend: (P, P, real, real) -> P)
    requires g.bbox.Some?
    modifies canvas
    ensures forall i, j :: 0 <= i < canvas.Length0 && 0 <= j < canvas.Length1 ==>
      canvas[i, j] == PixelAfter(old(canvas[i, j]), GlyphHits(g, x, y, color), i, j, blend)
  {
    var hits := GlyphHits(g, x, y, color);
    for k := 0 to |g.samples|
      invariant forall i, j :: 0 <= i < canvas.Length0 && 0 <= j < canvas.Length1 ==>
        canvas[i, j] == PixelAfter(old(canvas[i, j]), hits[..k], i, j, blend)
    {
      DrawSample(canvas, color, x, y, g.bbox.value, g.samples[k], blend);
      assert hits[..k + 1][..k] == hits[..k];
    }
    assert hits[..|g.samples|] == hits;
  }

  /**
   * Draws a laid-out line of text onto `canvas` in place with its origin at
   * (x, y): the layout hands each boxed glyph to the drawing callback, which
   * draws its samples.
   */
  method DrawTextMut<P>(canvas: array2<P>, color: P, x: int, y: int, glyphs: seq<Glyph>,
                        blend: (P, P, real, real) -> P)
    modifies canvas
    ensures forall i, j :: 0 <= i < canvas.Length0 && 0 <= j < canvas.Length1 ==>
      canvas[i, j] == PixelAfter(old(canvas[i, j]), RunHits(glyphs, x, y, color), i, j, blend)
  {
    var w, h, visited := Sizing.LayoutGlyphs(glyphs);
    BoxedMembers(glyphs);
    for k := 0 to |visited|
      invariant forall i, j :: 0 <= i < canvas.Length0 && 0 <= j < canvas.Length1 ==>
        canvas[i, j] == PixelAfter(old(canvas[i, j]), RunHits(visited[..k], x, y, color), i, j, blend)
    {
      assert visited[k] in Boxed(glyphs);
      DrawGlyph(canvas, color, x, y, visited[k], blend);
      assert visited[..k + 1][..k] == visited[..k];
      forall i, j | 0 <= i < canvas.Length0 && 0 <= j < canvas.Length1
        ensures canvas[i, j] == PixelAfter(old(canvas[i, j]), RunHits(visited[..k + 1], x, y, color), i, j, blend)
      {
        PixelAfterAppend(old(canvas[i, j]), RunHits(visited[..k], x, y, color),
                         GlyphHits(visited[k], x, y, color), i, j, blend);
      }
    }
    assert visited[..|visited|] == visited;
    RunHitsOfBoxed(glyphs, x, y, color);
  }

  /** A fresh surface of the same size holding the same pixels. */
  method CopyImage<P>(image: array2<P>) returns (out: array2<P>)
    ensures fresh(out)
    ensures out.Length0 == image.Length0 && out.Length1 == image.Length1
    ensures forall i, j :: 0 <= i < out.Length0 && 0 <= j < out.Length1 ==> out[i, j] == image[i, j]
  {
    out := new P[image.Length0, image.Length1](
      (i, j) requires 0 <= i < image.Length0 && 0 <= j < image.Length1 reads image => image[i, j]);
  }

  /**
   * Draws a line of text onto a copy of `image` and returns the copy; `image`
   * itself is left as it was.
   */
  method DrawText<P>(image: array2<P>, color: P, x: int, y: int, glyphs: seq<Glyph>,
                     blend: (P, P, real, real) -> P) returns (out: array2<P>)
    ensures fresh(out)
    ensures out.Length0 == image.Length0 && out.Length1 == image.Length1
    ensures forall i, j :: 0 <= i < out.Length0 && 0 <= j < out.Length1 ==>
      out[i, j] == PixelAfter(image[i, j], RunHits(glyphs, x, y, color), i, j, blend)
  {
    out := CopyImage(image);
    DrawTextMut(out, color, x, y, glyphs, blend);
  }
}
