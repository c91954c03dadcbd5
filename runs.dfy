/**
 * Glyph runs: a `GlyphString` is one laid-out line of text that knows its
 * advance-based size and can be drawn at a point or anchored in a
 * rectangle; `GlyphStrings` puts several runs side by side, each in its own
 * colour, as one anchored block.
 */
module Runs {
  import opened Glyphs
  import opened Anchor
  import opened Compositing

  /** The sum of the advance widths of `gs`. */
  function SumAdvances(gs: seq<Glyph>): (total: real)
  {
    if gs == [] then 0.0 else SumAdvances(gs[..|gs| - 1]) + gs[|gs| - 1].advance
  }

  /** One run of laid-out glyphs; it is built once and never changed. */
  datatype GlyphString = GlyphString(glyphs: seq<Glyph>)
  {
    /**
     * The horizontal space the run takes: its total advance, truncated to a
     * whole pixel, plus two pixels of padding.
     */
    function Width(): (w: nat)
      ensures 2 <= w
      ensures 0.0 <= SumAdvances(glyphs) ==> (w - 2) as real <= SumAdvances(glyphs) < (w - 1) as real
      ensures SumAdvances(glyphs) <= 0.0 ==> w == 2
    {
      2 + Truncate(SumAdvances(glyphs))
    }

    /**
     * The vertical space the run takes: the line height (ascent minus
     * descent) of its first glyph's font, enlarged by a tenth and truncated,
     * or 0 for an empty run.
     */
    function Height(): (h: nat)
      ensures glyphs == [] ==> h == 0
      ensures glyphs != [] && glyphs[0].descent <= glyphs[0].ascent ==>
        h as real <= (glyphs[0].ascent - glyphs[0].descent) * 1.1 < h as real + 1.0
      ensures glyphs != [] && glyphs[0].ascent <= glyphs[0].descent ==> h == 0
    {
      if glyphs == [] then 0 else Truncate((glyphs[0].ascent - glyphs[0].descent) * 1.1)
    }

    /** Draws the run onto `canvas` in place with its origin at (x, y). */
    method DrawMut<P>(canvas: array2<P>, color: P, x: nat, y: nat, blend: (P, P, real, real) -> P)
      modifies canvas
      ensures forall i, j :: 0 <= i < canvas.Length0 && 0 <= j < canvas.Length1 ==>
        canvas[i, j] == PixelAfter(old(canvas[i, j]), RunHits(glyphs, x, y, color), i, j, blend)
    {
      for k := 0 to |glyphs|
        invariant forall i, j :: 0 <= i < canvas.Length0 && 0 <= j < canvas.Length1 ==>
          canvas[i, j] == PixelAfter(old(canvas[i, j]), RunHits(glyphs[..k], x, y, color), i, j, blend)
      {
        assert glyphs[..k + 1][..k] == glyphs[..k];
        if glyphs[k].bbox.Some? {
          DrawGlyph(canvas, color, x, y, glyphs[k], blend);
          forall i, j | 0 <= i < canvas.Length0 && 0 <= j < canvas.Length1
            ensures canvas[i, j] == PixelAfter(old(canvas[i, j]), RunHits(glyphs[..k + 1], x, y, color), i, j, blend)
          {
            PixelAfterAppend(old(canvas[i, j]), RunHits(glyphs[..k], x, y, color),
                             GlyphHits(glyphs[k], x, y, color), i, j, blend);
          }
        }
      }
      assert glyphs[..|glyphs|] == glyphs;
    }

    /** Draws the run onto a copy of `image` at (x, y) and returns the copy. */
    method Draw<P>(image: array2<P>, color: P, x: nat, y: nat, blend: (P, P, real, real) -> P)
      returns (out: array2<P>)
      ensures fresh(out)
      ensures out.Length0 == image.Length0 && out.Length1 == image.Length1
      ensures forall i, j :: 0 <= i < out.Length0 && 0 <= j < out.Length1 ==>
        out[i, j] == PixelAfter(image[i, j], RunHits(glyphs, x, y, color), i, j, blend)
    {
      out := CopyImage(image);
      DrawMut(out, color, x, y, blend);
    }

    /** Draws the run in place, anchored at `position` inside `rectangle`. */
    method DrawPositionedMut<P>(canvas: array2<P>, color: P, position: Position, rectangle: Rect,
                                blend: (P, P, real, real) -> P)
      requires Admissible(position, rectangle, Width(), Height())
      modifies canvas
      ensures var origin := FindTextAreaCoordinates(position, rectangle, Width(), Height());
        forall i, j :: 0 <= i < canvas.Length0 && 0 <= j < canvas.Length1 ==>
          canvas[i, j] == PixelAfter(old(canvas[i, j]), RunHits(glyphs, origin.0, origin.1, color), i, j, blend)
    {
      var width := Width();
      var height := Height();
      var (x, y) := FindTextAreaCoordinates(position, rectangle, width, height);
      DrawMut(canvas, color, x, y, blend);
    }

    /** Draws the run onto a copy of `image`, anchored at `position` inside `rectangle`. */
    method DrawPositioned<P>(image: array2<P>, color: P, position: Position, rectangle: Rect,
                             blend: (P, P, real, real) -> P) returns (out: array2<P>)
      requires Admissible(position, rectangle, Width(), Height())
      ensures fresh(out)
      ensures out.Length0 == image.Length0 && out.Length1 == image.Length1
      ensures var origin := FindTextAreaCoordinates(position, rectangle, Width(), Height());
        forall i, j :: 0 <= i < out.Length0 && 0 <= j < out.Length1 ==>
          out[i, j] == PixelAfter(image[i, j], RunHits(glyphs, origin.0, origin.1, color), i, j, blend)
    {
      out := CopyImage(image);
      DrawPositionedMut(out, color, position, rectangle, blend);
    }
  }

  /**
   * With every advance the same whole number `a` of pixels (a monospaced
   * font), a run of n glyphs is `2 + a * n` wide.
   */
  lemma {:induction false} MonospacedWidth(glyphs: seq<Glyph>, a: nat)
    requires forall k :: 0 <= k < |glyphs| ==> glyphs[k].advance == a as real
    ensures GlyphString(glyphs).Width() == 2 + a * |glyphs|
  {
    SumOfEqualAdvances(glyphs, a);
    assert Truncate((a * |glyphs|) as real) == a * |glyphs|;
  }

  lemma {:induction false} SumOfEqualAdvances(glyphs: seq<Glyph>, a: nat)
    requires forall k :: 0 <= k < |glyphs| ==> glyphs[k].advance == a as real
    ensures SumAdvances(glyphs) == (a * |glyphs|) as real
  {
    if glyphs != [] {
      var n := |glyphs|;
      SumOfEqualAdvances(glyphs[..n - 1], a);
      assert a * n == a * (n - 1) + a;
    }
  }

  /** The widths of the first n runs added up: where run n starts, measured from the block's left edge. */
  function PrefixWidth(runs: seq<GlyphString>, n: nat): (w: nat)
    requires n <= |runs|
    ensures 2 * n <= w
  {
    if n == 0 then 0 else PrefixWidth(runs, n - 1) + runs[n - 1].Width()
  }

  /**
   * The hits of the first n runs of a block drawn from (x, y): run k is drawn
   * in `colors[k]` with its origin at `x + PrefixWidth(runs, k)` and at `y`.
   */
  function HitsOfFirst<P>(runs: seq<GlyphString>, colors: seq<P>, n: nat, x: int, y: int): (hs: seq<Hit<P>>)
    requires n <= |runs| && n <= |colors|
  {
    if n == 0 then []
    else HitsOfFirst(runs, colors, n - 1, x, y) + RunHits(runs[n - 1].glyphs, x + PrefixWidth(runs, n - 1), y, colors[n - 1])
  }

  /** Several runs drawn side by side as one block; each is drawn in its own colour. */
  datatype GlyphStrings = GlyphStrings(runs: seq<GlyphString>)
  {
    /** The width of the block: the widths of its runs added up. */
    function Width(): (w: nat)
      ensures 2 * |runs| <= w
    {
      PrefixWidth(runs, |runs|)
    }

    /** The height of the block: the tallest of its runs, or 0 when it has none. */
    function Height(): (h: nat)
      decreases |runs|
      ensures forall k :: 0 <= k < |runs| ==> runs[k].Height() <= h
      ensures runs == [] ==> h == 0
      ensures runs != [] ==> exists k :: 0 <= k < |runs| && runs[k].Height() == h
    {
      if runs == [] then 0
      else
        var init := GlyphStrings(runs[..|runs| - 1]);
        assert forall k :: 0 <= k < |runs| - 1 ==> init.runs[k] == runs[k];
        Max(init.Height(), runs[|runs| - 1].Height())
    }

    /**
     * The hits of the block drawn from (x, y): runs and colours are paired up
     * in order, as far as the shorter of the two lists goes.
     */
    function BlockHits<P>(colors: seq<P>, x: int, y: int): (hs: seq<Hit<P>>)
    {
      HitsOfFirst(runs, colors, Min(|runs|, |colors|), x, y)
    }

    /**
     * Draws the block in place, anchored at `position` inside `rectangle`:
     * one origin is found for the whole block, and the runs are drawn from
     * there.
     */
    method DrawPositionedMut<P>(canvas: array2<P>, colors: seq<P>, position: Position, rectangle: Rect,
                                blend: (P, P, real, real) -> P)
      requires Admissible(position, rectangle, Width(), Height())
      modifies canvas
      ensures var origin := FindTextAreaCoordinates(position, rectangle, Width(), Height());
        forall i, j :: 0 <= i < canvas.Length0 && 0 <= j < canvas.Length1 ==>
          canvas[i, j] == PixelAfter(old(canvas[i, j]), BlockHits(colors, origin.0, origin.1), i, j, blend)
    {
      var width := Width();
      var height := Height();
      var origin := FindTextAreaCoordinates(position, rectangle, width, height);
      DrawFrom(canvas, colors, origin.0, origin.1, blend);
    }

    /**
     * Draws the runs from left to right starting at (x, y), each in the
     * colour at its own index, advancing the x-cursor by each run's width.
     */
    method DrawFrom<P>(canvas: array2<P>, colors: seq<P>, x: nat, y: nat, blend: (P, P, real, real) -> P)
      modifies canvas
      ensures forall i, j :: 0 <= i < canvas.Length0 && 0 <= j < canvas.Length1 ==>
        canvas[i, j] == PixelAfter(old(canvas[i, j]), BlockHits(colors, x, y), i, j, blend)
    {
      var cursor := x;
      var n := Min(|runs|, |colors|);
      for k := 0 to n
        invariant cursor == x + PrefixWidth(runs, k)
        invariant forall i, j :: 0 <= i < canvas.Length0 && 0 <= j < canvas.Length1 ==>
          canvas[i, j] == PixelAfter(old(canvas[i, j]), HitsOfFirst(runs, colors, k, x, y), i, j, blend)
      {
        var run, color := runs[k], colors[k];
        run.DrawMut(canvas, color, cursor, y, blend);
        forall i, j | 0 <= i < canvas.Length0 && 0 <= j < canvas.Length1
          ensures canvas[i, j] == PixelAfter(old(canvas[i, j]), HitsOfFirst(runs, colors, k + 1, x, y), i, j, blend)
        {
          PixelAfterAppend(old(canvas[i, j]), HitsOfFirst(runs, colors, k, x, y),
                           RunHits(run.glyphs, cursor, y, color), i, j, blend);
        }
        cursor := cursor + run.Width();
      }
    }
  }

  /** The first n runs of a longer list have the same total width. */
  lemma {:induction false} PrefixWidthOfPrefix(a: seq<GlyphString>, b: seq<GlyphString>, n: nat)
    requires n <= |a|
    ensures PrefixWidth(a + b, n) == PrefixWidth(a, n)
  {
    if n > 0 {
      PrefixWidthOfPrefix(a, b, n - 1);
    }
  }

  /** The runs after a prefix `a` start where `a` ends. */
  lemma {:induction false} PrefixWidthPastPrefix(a: seq<GlyphString>, b: seq<GlyphString>, m: nat)
    requires m <= |b|
    ensures PrefixWidth(a + b, |a| + m) == PrefixWidth(a, |a|) + PrefixWidth(b, m)
  {
    if m == 0 {
      PrefixWidthOfPrefix(a, b, |a|);
    } else {
      PrefixWidthPastPrefix(a, b, m - 1);
    }
  }

  /** The width of two blocks put side by side is the sum of their widths. */
  lemma WidthAppend(a: seq<GlyphString>, b: seq<GlyphString>)
    ensures GlyphStrings(a + b).Width() == GlyphStrings(a).Width() + GlyphStrings(b).Width()
  {
    PrefixWidthPastPrefix(a, b, |b|);
  }

  /**
   * The x-cursor after k runs have been drawn is the width of the block made
   * of those k runs alone.
   */
  lemma CursorAfter(runs: seq<GlyphString>, k: nat)
    requires k <= |runs|
    ensures PrefixWidth(runs, k) == GlyphStrings(runs[..k]).Width()
  {
    PrefixWidthOfPrefix(runs[..k], runs[k..], k);
    assert runs[..k] + runs[k..] == runs;
  }

  /** Drawing the first n runs looks only at the first n runs and colours. */
  lemma {:induction false} HitsOfFirstPrefix<P>(runs: seq<GlyphString>, more: seq<GlyphString>,
                                                colors: seq<P>, moreColors: seq<P>, n: nat, x: int, y: int)
    requires n <= |runs| && n <= |colors|
    ensures HitsOfFirst(runs + more, colors + moreColors, n, x, y) == HitsOfFirst(runs, colors, n, x, y)
  {
    if n > 0 {
      HitsOfFirstPrefix(runs, more, colors, moreColors, n - 1, x, y);
      PrefixWidthOfPrefix(runs, more, n - 1);
    }
  }

  /**
   * The runs and the colours are zipped, stopping at the shorter list: runs
   * beyond the last colour are not drawn, and colours beyond the last run are
   * not used.
   */
  lemma TruncatingZip<P>(runs: seq<GlyphString>, more: seq<GlyphString>, colors: seq<P>, moreColors: seq<P>,
                         x: int, y: int)
    ensures |colors| <= |runs| ==>
      GlyphStrings(runs + more).BlockHits(colors, x, y) == GlyphStrings(runs).BlockHits(colors, x, y)
    ensures |runs| <= |colors| ==>
      GlyphStrings(runs).BlockHits(colors + moreColors, x, y) == GlyphStrings(runs).BlockHits(colors, x, y)
  {
    if |colors| <= |runs| {
      HitsOfFirstPrefix(runs, more, colors, [], |colors|, x, y);
      assert colors + [] == colors;
    }
    if |runs| <= |colors| {
      HitsOfFirstPrefix(runs, [], colors, moreColors, |runs|, x, y);
      assert runs + [] == runs;
    }
  }
}
