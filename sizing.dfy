/**
 * Sizing a line of text by its tight pixel box: `layout_glyphs` folds the
 * far edges of the glyph boxes into a width and a height, starting from 0,
 * and `text_size` is that fold with a callback that does nothing.
 */
module Sizing {
  import opened Glyphs

  /**
   * The largest far edge on axis `a` among the boxed glyphs of `gs`, or 0
   * when none is larger: the value the fold in `layout_glyphs` ends with.
   */
  function MaxExtent(gs: seq<Glyph>, a: Axis): (m: int)
  {
    if gs == [] then 0
    else
      var m0 := MaxExtent(gs[..|gs| - 1], a);
      var last := gs[|gs| - 1];
      if last.bbox.Some? then Max(m0, FarEdge(last.bbox.value, a)) else m0
  }

  /**
   * The fold is the maximum with 0: it is at least 0 and at least every
   * boxed glyph's far edge, and it is 0 or the far edge of some boxed glyph.
   */
  lemma {:induction false} MaxExtentIsMax(gs: seq<Glyph>, a: Axis)
    ensures 0 <= MaxExtent(gs, a)
    ensures forall k :: 0 <= k < |gs| && gs[k].bbox.Some? ==> FarEdge(gs[k].bbox.value, a) <= MaxExtent(gs, a)
    ensures MaxExtent(gs, a) == 0 ||
      exists k :: 0 <= k < |gs| && gs[k].bbox.Some? && FarEdge(gs[k].bbox.value, a) == MaxExtent(gs, a)
  {
    if gs != [] {
      var init := gs[..|gs| - 1];
      MaxExtentIsMax(init, a);
      assert forall k :: 0 <= k < |init| ==> gs[k] == init[k];
    }
  }

  /**
   * The layout fold. The callback the source passes in is modelled by
   * `visited`: the glyphs it is called with, in order, each together with
   * its bounding box `bbox.value`.
   */
  method LayoutGlyphs(glyphs: seq<Glyph>) returns (w: int, h: int, visited: seq<Glyph>)
    ensures w == MaxExtent(glyphs, Horizontal) && h == MaxExtent(glyphs, Vertical)
    ensures visited == Boxed(glyphs)
  {
    w, h, visited := 0, 0, [];
    for i := 0 to |glyphs|
      invariant w == MaxExtent(glyphs[..i], Horizontal)
      invariant h == MaxExtent(glyphs[..i], Vertical)
      invariant visited == Boxed(glyphs[..i])
    {
      assert glyphs[..i + 1][..i] == glyphs[..i];
      if glyphs[i].bbox.Some? {
        var bb := glyphs[i].bbox.value;
        w := Max(w, bb.max.x);
        h := Max(h, bb.max.y);
        visited := visited + [glyphs[i]];
      }
    }
    assert glyphs[..|glyphs|] == glyphs;
  }

  /** The tight width and height of a laid-out line of text. */
  method TextSize(glyphs: seq<Glyph>) returns (w: int, h: int)
    ensures 0 <= w && 0 <= h
    ensures forall g :: g in glyphs && g.bbox.Some? ==> g.bbox.value.max.x <= w && g.bbox.value.max.y <= h
    ensures w == 0 || exists g :: g in glyphs && g.bbox.Some? && g.bbox.value.max.x == w
    ensures h == 0 || exists g :: g in glyphs && g.bbox.Some? && g.bbox.value.max.y == h
  {
    var visited;
    w, h, visited := LayoutGlyphs(glyphs);
    MaxExtentIsMax(glyphs, Horizontal);
    MaxExtentIsMax(glyphs, Vertical);
    assert forall g :: g in glyphs ==> exists k :: 0 <= k < |glyphs| && glyphs[k] == g;
  }

  /**
   * Glyphs without a bounding box have no effect on the size: the fold over
   * all glyphs equals the fold over the boxed ones alone.
   */
  lemma {:induction false} MaxExtentIgnoresUnboxed(gs: seq<Glyph>, a: Axis)
    ensures MaxExtent(gs, a) == MaxExtent(Boxed(gs), a)
  {
    if gs != [] {
      var init := gs[..|gs| - 1];
      var last := gs[|gs| - 1];
      MaxExtentIgnoresUnboxed(init, a);
      if last.bbox.Some? {
        var b := Boxed(init) + [last];
        assert b[..|b| - 1] == Boxed(init);
      }
    }
  }

  /**
   * Appending glyphs can only grow the size: the fold is monotone in the
   * text, so a prefix of a line is never wider or taller than the line.
   */
  lemma {:induction false} MaxExtentGrows(gs: seq<Glyph>, more: seq<Glyph>, a: Axis)
    ensures MaxExtent(gs, a) <= MaxExtent(gs + more, a)
  {
    var m := MaxExtent(gs, a);
    MaxExtentIsMax(gs, a);
    MaxExtentIsMax(gs + more, a);
    if m != 0 {
      var k :| 0 <= k < |gs| && gs[k].bbox.Some? && FarEdge(gs[k].bbox.value, a) == m;
      assert (gs + more)[k] == gs[k];
    }
  }
}
