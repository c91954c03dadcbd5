# Text layout and compositing in `src/drawing/text.rs`, modelled in Dafny

This project models the text-drawing core of the `imageproc` crate. It has three parts:

- **Sizing.** `layout_glyphs` and `text_size` give the tight pixel size of a line of glyphs. `GlyphString::width`/`height` give the advance-based size of one run, and `GlyphStrings::width`/`height` give the size of several runs side by side.
- **Anchoring.** `calculate_center` and `find_text_area_coordinates` turn a `Position`, a rectangle and a content size into a top-left origin.
- **Compositing.** `draw_text_mut`, `GlyphString::draw_mut` and `GlyphStrings::draw_positioned_mut` blend each glyph's coverage samples into a pixel surface in place. Samples that fall outside the surface are dropped. `draw_text`, `draw` and `draw_positioned` do the same on a copy.

The model is organised as follows:

- **Glyphs** (`glyphs.dfy`): a glyph is plain data. It has an optional pixel bounding box, the coverage samples the rasterizer reports for it (local column, local row, coverage), its advance width, and the ascent and descent of its font at its scale. The layout's output is a sequence of such glyphs.
- **Surface**: an `array2<P>` indexed `[x, y]`, generic in the pixel type `P`.
- **Blend**: the channel blend `weighted_sum` is the parameter `blend`, called exactly as the source calls it: `blend(old, color, 1 - gv, gv)`.
- **Numbers**: `f32` values are `real`. The `as u32` cast is `Truncate`: truncation toward zero, with 0 for non-positive values.

The compositing contract is stated pixel by pixel:

- Every sample becomes a `Hit` at `(gx + bb.min.x + x, gy + bb.min.y + y)`.
- `PixelAfter` gives a pixel's final value: its old value blended, in drawing order, with every hit that lands on it.
- Each in-place draw method ensures that every pixel of the surface ends at `PixelAfter` of its old value. Each copying variant ensures the same of a fresh copy, and it leaves its input unchanged.
- Lemmas beside these give the consequences. A pixel no hit lands on is unchanged. A pixel hit once gets exactly one blend. A draw entirely off the surface changes nothing.

Modules: `Glyphs` (data and the cast), `Sizing` (`layout_glyphs`, `text_size`), `Anchor` (`EdgePosition`, `Position`, `calculate_center`, `find_text_area_coordinates`), `Compositing` (the per-pixel specification, `draw_text_mut`, `draw_text`), `Runs` (`GlyphString`, `GlyphStrings`).

## Model

| member | source | states |
|---|---|---|
| `Glyphs.Truncate` | src/drawing/text.rs:106 | the `f32 as u32` cast: 0 for values at or below zero, otherwise the whole number `r` with `r <= v < r + 1` |
| `Glyphs.BoxedMembers` | src/drawing/text.rs:24-29 | the glyphs handed on with a bounding box are exactly the glyphs of the layout that have one; no others |
| `Glyphs.BoxedAppend` | src/drawing/text.rs:24-29 | the filter works glyph by glyph in layout order: the glyphs kept from `a + b` are those kept from `a` followed by those kept from `b` |
| `Glyphs.BoxedSingleton` | src/drawing/text.rs:25-28 | a single glyph is kept exactly when it has a bounding box. With `BoxedAppend` this fixes the order and multiplicity of what is kept |
| `Sizing.MaxExtentIsMax` | src/drawing/text.rs:22-32 | the fold result is at least 0 and at least every boxed glyph's far edge. It is either 0 or equal to some boxed glyph's far edge |
| `Sizing.LayoutGlyphs` | src/drawing/text.rs:14-33 | the loop returns the fold of `bb.max.x` and of `bb.max.y`. The callback is invoked exactly for the boxed glyphs, in order |
| `Sizing.TextSize` | src/drawing/text.rs:36-38 | the size is `(max bb.max.x, max bb.max.y)` over boxed glyphs, never below `(0, 0)`, and each component is 0 or attained by a glyph |
| `Sizing.MaxExtentIgnoresUnboxed` | src/drawing/text.rs:25-29 | glyphs without a bounding box do not change the size |
| `Sizing.MaxExtentGrows` | src/drawing/text.rs:24-30 | appending glyphs never shrinks the size |
| `Anchor.TimesIsProduct` | src/drawing/text.rs:106 | `Times(n, e)`, the `n`-fold sum of `e` used for the scaling in `calculate_center`, is the product `n * e` |
| `Anchor.CalculateCenter` | src/drawing/text.rs:101-107 | the result is `floor(Times(free, e) / 100)`, that is `floor(free * e / 100)`, for `e >= 0` and 0 for `e <= 0`, where `free` is `rectangle - content`. It is at most `free` for `e <= 100` |
| `Anchor.CalculateCenterMonotone` | src/drawing/text.rs:101-107 | a larger edge percentage never gives a smaller offset |
| `Anchor.NamedEdges` | src/drawing/text.rs:352-380 | `left()`/`top()` (0) give offset 0, `right()`/`bottom()` (100) give the whole free space, and `center()` (50) gives half of it, rounded down |
| `Anchor.FindTextAreaCoordinates` | src/drawing/text.rs:109-145 | `HorizontalTop` pins `y` to `top`, `HorizontalBottom` puts the bottom of the text on `bottom`, `VerticalLeft` pins `x` to `left`, and `VerticalRight` puts the right edge of the text on `right`. Centred axes have equal padding up to one pixel. A sliding axis (`x` for `Horizontal*`, `y` for `Vertical*`, both for `Any`) starts `floor(free * e / 100)` past `left` or `top` for `e >= 0`, and exactly at it for `e <= 0`, where `free` is the rectangle's side minus the content's. With edges in [0, 100] the sliding axes keep the text inside the rectangle |
| `Anchor.PositionsAreAny` | src/drawing/text.rs:115-144 | `HorizontalTop`, `HorizontalCenter`, `VerticalLeft` and `VerticalCenter` give the same origin as `Any` with `top()`, `center()`, `left()` or `center()` on the pinned axis |
| `Anchor.EndPositionsAreAny` | src/drawing/text.rs:120-135 | `HorizontalBottom` and `VerticalRight` agree with `Any` with `bottom()` or `right()` on the sliding axis. On the pinned axis they differ by exactly `bottom - (top + height)` or `right - (left + width)` |
| `Anchor.CenteredBlockExample` | src/drawing/text.rs:116-143 | a 20 × 10 block in a 100 × 50 rectangle goes to (40, 20) when centred and to (0, 0) at left/top |
| `Compositing.DrawTranslates` | src/drawing/text.rs:58-62 | the draw origin only translates the picture: pixel `(i + dx, j + dy)` after drawing at `(x + dx, y + dy)` equals pixel `(i, j)` after drawing at `(x, y)`, from the same starting value |
| `Compositing.RunHitsShifted` | src/drawing/text.rs:58-62 | the hits of a line drawn at `(x + dx, y + dy)` are its hits at `(x, y)`, each moved by `(dx, dy)`, in the same order |
| `Compositing.PixelAfterShifted` | src/drawing/text.rs:64-67 | moving every hit by `(dx, dy)` moves every final pixel value by `(dx, dy)` |
| `Compositing.PixelAfterAppend` | src/drawing/text.rs:56-70 | drawing one set of hits after another is drawing their concatenation |
| `Compositing.NotHitUnchanged` | src/drawing/text.rs:64-68 | a pixel that no hit lands on keeps its value |
| `Compositing.HitOnceBlends` | src/drawing/text.rs:64-67 | a pixel hit exactly once ends as `weighted_sum(old, color, 1 - gv, gv)` |
| `Compositing.OffSurfaceNoop` | src/drawing/text.rs:61-68 | if every hit falls outside `[0, width) × [0, height)`, no pixel changes |
| `Compositing.RunHitsOfBoxed` | src/drawing/text.rs:198-200 | drawing only the boxed glyphs draws the same hits as drawing the whole run |
| `Compositing.DrawSample` | src/drawing/text.rs:57-68 | an in-range sample replaces the pixel at its translated position with the blend of the pixel read just before. An out-of-range sample changes nothing, and no other pixel changes |
| `Compositing.DrawGlyph` | src/drawing/text.rs:57-69 | after one glyph, every pixel is `PixelAfter` of its old value over that glyph's hits |
| `Compositing.DrawTextMut` | src/drawing/text.rs:41-71 | after the draw, every pixel is `PixelAfter` of its old value over the hits of all boxed glyphs |
| `Compositing.CopyImage` | src/drawing/text.rs:88-89 | the copy is a fresh surface with the same dimensions and the same pixels |
| `Compositing.DrawText` | src/drawing/text.rs:74-92 | the result is fresh and has the input's dimensions. Its pixels are the in-place draw applied to the input's pixels. The input is not modified |
| `Runs.GlyphString.Width` | src/drawing/text.rs:166-172 | the width is 2 plus the truncated sum of advance widths: at least 2, and `w - 2 <= sum < w - 1` for a non-negative sum |
| `Runs.MonospacedWidth` | src/drawing/text.rs:166-172 | with every advance equal to a whole `a`, a run of `n` glyphs is `2 + a * n` wide |
| `Runs.GlyphString.Height` | src/drawing/text.rs:175-188 | 0 for an empty run. Otherwise it is `(ascent - descent) * 1.1` of the first glyph, truncated |
| `Runs.GlyphString.DrawMut` | src/drawing/text.rs:193-222 | every pixel ends as `PixelAfter` of its old value over the run's hits at `(x, y)`. This is the same effect as `draw_text_mut` |
| `Runs.GlyphString.Draw` | src/drawing/text.rs:227-237 | a fresh surface of the input's size, holding the in-place draw applied to the input's pixels |
| `Runs.GlyphString.DrawPositionedMut` | src/drawing/text.rs:290-305 | the run is drawn at the origin `find_text_area_coordinates` gives for its own width and height |
| `Runs.GlyphString.DrawPositioned` | src/drawing/text.rs:309-325 | the same as `DrawPositionedMut`, on a fresh copy of the input's size |
| `Runs.PrefixWidth` | src/drawing/text.rs:481-484 | the x-cursor after `n` runs is at least `2n` past the block's origin |
| `Runs.CursorAfter` | src/drawing/text.rs:481-484 | the x-cursor after `k` runs is the width of the block made of those `k` runs |
| `Runs.GlyphStrings.Width` | src/drawing/text.rs:497-499 | the block width is the sum of member widths, at least 2 per run |
| `Runs.WidthAppend` | src/drawing/text.rs:497-499 | the width of two blocks side by side is the sum of their widths |
| `Runs.GlyphStrings.Height` | src/drawing/text.rs:488-494 | the block height is the largest member height, or 0 with no members |
| `Runs.GlyphStrings.DrawPositionedMut` | src/drawing/text.rs:467-485 | one origin is found for the whole block, from the block's own width and height, and the block's hits are drawn from there |
| `Runs.GlyphStrings.DrawFrom` | src/drawing/text.rs:481-484 | run `k < min(#runs, #colours)` is drawn in `colors[k]` at `x0 + Σ_{i<k} width_i` and the shared `y`, in order |
| `Runs.TruncatingZip` | src/drawing/text.rs:481 | runs beyond the last colour are not drawn, and colours beyond the last run are not used |

## Left out

- Font shaping and rasterisation are not modelled. This covers `Font::layout`, `v_metrics`, `pixel_bounding_box`, `h_metrics` and the `g.draw` callback. A glyph is given data instead: its box, its samples in the order the rasterizer reports them, its advance and its vertical metrics. `GlyphString::new` is the datatype constructor over such a sequence, and the layout origin `(0, ascent)` is part of that given data.
- `weighted_sum` and the `ValueInto<f32>`/`Clamp<f32>` channel conversions are the `blend` parameter, left uninterpreted. So nothing is proved about blending at coverage 0 or 1.
- Floating-point rounding is not modelled. `f32` sums and products are exact `real` arithmetic, including the `× 1.1` in `GlyphString::height` and the `× e / 100` in `calculate_center`.
- `Glyphs.Truncate`: does not model the cast's saturation at `u32::MAX` or its handling of NaN, because sizes are unbounded naturals here.
- u32 overflow and underflow are not modelled. `Anchor.Admissible` states the preconditions that rule out underflow:
  - content no larger than the rectangle on every axis the formula subtracts on;
  - `left`, `top`, `right` and `bottom` not negative where they are cast to `u32`.
- Additions (`2 + …`, the sum of run widths, `left + offset`, the x-cursor) are unbounded.
- The `u32 as i32` reinterpretation of a draw origin of 2^31 or more is not modelled: draw origins are unbounded integers.
- `Rect::right()` and `Rect::bottom()` are given fields of `Anchor.Rect`, because `crate::rect` is not part of this model. The lemma `Anchor.EndPositionsAreAny` keeps the offset `right - (left + width)` explicit so that it holds under either convention for the right edge.
- `EdgePosition`'s `From<f32>` and `From<u32>` conversions are the datatype constructor `EdgePosition(percent)`. The named positions `left()`, `top()`, `center()`, `right()` and `bottom()` are constants.
- Image allocation (`ImageBuffer::new`) and `copy_from` are modelled together as `Compositing.CopyImage`. The error `copy_from` can report never happens for same-sized images. The distinction between the `Canvas` and `GenericImage` traits (`draw_pixel` against `put_pixel`) disappears: both write one pixel of the array.
