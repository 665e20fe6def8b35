/** What the image library does with a layout from the `/stitch` handler: it
    creates a blank canvas filled with the background colour and draws every
    slice of the composite list onto it, in list order, at the slice's offsets.
    Pixels are kept abstract (an image is a list of rows of `Rgba` values) and
    the blend mode is a parameter; the one thing assumed of it is that drawing
    a pixel over a fully transparent one yields that pixel unchanged. */
module Compositing {
  import opened Wrappers
  import opened Stitcher

  /** One row of pixels, left to right. */
  type Row = seq<Rgba>

  /** An image as its rows, top to bottom. */
  type Image = seq<Row>

  /** A `width` x `height` image of one colour: the canvas the library creates. */
  function Blank(width: nat, height: nat, background: Rgba): Image
  {
    seq(height, _ => seq(width, _ => background))
  }

  /** `src` drawn over the row `dst` from column `left` on; columns of `src` past
      the end of `dst` are clipped. */
  function BlendRow(src: Row, dst: Row, left: nat, blend: (Rgba, Rgba) -> Rgba): Row
  {
    seq(|dst|, x requires 0 <= x < |dst| =>
      if left <= x < left + |src| then blend(src[x - left], dst[x]) else dst[x])
  }

  /** `img` drawn over `canvas` with its top-left corner at (`left`, `top`);
      rows of `img` below the canvas are clipped. */
  function Overlay(canvas: Image, img: Image, top: nat, left: nat, blend: (Rgba, Rgba) -> Rgba): Image
  {
    seq(|canvas|, y requires 0 <= y < |canvas| =>
      if top <= y < top + |img| then BlendRow(img[y - top], canvas[y], left, blend) else canvas[y])
  }

  /** Whether row `y` of the canvas lies within the rows of some layer. */
  predicate Drawn(y: nat, layers: seq<Image>, placements: seq<Placement>)
    requires |layers| == |placements|
  {
    exists i :: 0 <= i < |layers| && placements[i].top <= y < placements[i].top + |layers[i]|
  }

  /** `layers[i]` drawn at `placements[i]`, first entry first, as the library's
      composite call does with its list. */
  function CompositeAll(canvas: Image, layers: seq<Image>, placements: seq<Placement>,
                        blend: (Rgba, Rgba) -> Rgba): (r: Image)
    requires |layers| == |placements|
    ensures |r| == |canvas|
    ensures forall y :: 0 <= y < |r| ==> |r[y]| == |canvas[y]|
    ensures forall y :: 0 <= y < |r| && !Drawn(y, layers, placements) ==> r[y] == canvas[y]
  {
    if layers == [] then canvas
    else
      var n := |layers| - 1;
      Overlay(CompositeAll(canvas, layers[..n], placements[..n], blend),
              layers[n], placements[n].top, placements[n].left, blend)
  }

  /** The final image for a layout, given the decoded pixels of each slice. */
  function Render(layout: Layout, layers: seq<Image>, blend: (Rgba, Rgba) -> Rgba): (r: Image)
    requires |layers| == |layout.placements|
    ensures |r| == layout.canvas.height
    ensures forall y :: 0 <= y < |r| ==> |r[y]| == layout.canvas.width
    ensures forall y :: 0 <= y < |r| && !Drawn(y, layers, layout.placements)
              ==> r[y] == seq(layout.canvas.width, _ => layout.canvas.background)
  {
    CompositeAll(Blank(layout.canvas.width, layout.canvas.height, layout.canvas.background),
                 layers, layout.placements, blend)
  }

  /** The rows of `layers` one after the other: the slices stacked vertically. */
  function Concat(layers: seq<Image>): Image
  {
    if layers == [] then [] else Concat(layers[..|layers| - 1]) + layers[|layers| - 1]
  }

  /** Drawing over a fully transparent pixel leaves the drawn pixel as it is. */
  ghost predicate KeepsOverTransparent(blend: (Rgba, Rgba) -> Rgba)
  {
    forall p :: blend(p, Transparent) == p
  }

  /** Slice `i`'s pixels have `metas[i].height` rows, each `width` pixels wide. */
  predicate Fits(layers: seq<Image>, metas: seq<SliceMeta>, width: nat)
  {
    |layers| == |metas| &&
    forall i :: 0 <= i < |layers| ==>
      |layers[i]| == metas[i].height && forall y :: 0 <= y < |layers[i]| ==> |layers[i][y]| == width
  }

  /** Placement `i` puts slice `i` at column 0, below all slices before it. */
  predicate Stacked(placements: seq<Placement>, metas: seq<SliceMeta>)
  {
    |placements| == |metas| &&
    forall i :: 0 <= i < |placements| ==> placements[i].top == Top(metas, i) && placements[i].left == 0
  }

  // ---------------------------------------------------------------------------
  // Stacking
  // ---------------------------------------------------------------------------

  /** The stacked slices are as tall as the sum of the slice heights above row `k`. */
  lemma {:induction false} ConcatHeight(layers: seq<Image>, metas: seq<SliceMeta>, width: nat, k: nat)
    requires Fits(layers, metas, width)
    requires k <= |layers|
    ensures |Concat(layers[..k])| == Top(metas, k)
  {
    if k > 0 {
      assert layers[..k][..k - 1] == layers[..k - 1];
      ConcatHeight(layers, metas, width, k - 1);
      TopStep(metas, k - 1);
    }
  }

  /** Stacking fewer slices gives a prefix of stacking more of them. */
  lemma {:induction false} ConcatPrefix(layers: seq<Image>, j: nat, k: nat)
    requires j <= k <= |layers|
    ensures Concat(layers[..j]) <= Concat(layers[..k])
  {
    if j < k {
      assert layers[..k][..k - 1] == layers[..k - 1];
      ConcatPrefix(layers, j, k - 1);
    }
  }

  /** Every row of the stacked slices is `width` pixels wide. */
  lemma {:induction false} ConcatRowWidth(layers: seq<Image>, metas: seq<SliceMeta>, width: nat, k: nat)
    requires Fits(layers, metas, width)
    requires k <= |layers|
    ensures forall y :: 0 <= y < |Concat(layers[..k])| ==> |Concat(layers[..k])[y]| == width
  {
    if k > 0 {
      assert layers[..k][..k - 1] == layers[..k - 1];
      ConcatRowWidth(layers, metas, width, k - 1);
    }
  }

  /** A slice drawn over transparent rows of its own width is copied exactly. */
  lemma BlendOverBlank(src: Row, width: nat, blend: (Rgba, Rgba) -> Rgba)
    requires KeepsOverTransparent(blend)
    requires |src| == width
    ensures BlendRow(src, seq(width, _ => Transparent), 0, blend) == src
  {
  }

  /** Drawing a slice at the first transparent row of a canvas whose remaining
      rows are all transparent copies the slice there and leaves the rows below
      it transparent. */
  lemma OverlayOntoBlankTail(done: Image, slice: Image, width: nat, rest: nat,
                             blend: (Rgba, Rgba) -> Rgba)
    requires KeepsOverTransparent(blend)
    requires |slice| <= rest
    requires forall y :: 0 <= y < |slice| ==> |slice[y]| == width
    ensures Overlay(done + Blank(width, rest, Transparent), slice, |done|, 0, blend)
            == done + slice + Blank(width, rest - |slice|, Transparent)
  {
    var canvas := done + Blank(width, rest, Transparent);
    var after := Overlay(canvas, slice, |done|, 0, blend);
    var expected := done + slice + Blank(width, rest - |slice|, Transparent);
    forall y | 0 <= y < |after|
      ensures after[y] == expected[y]
    {
      if |done| <= y < |done| + |slice| {
        BlendOverBlank(slice[y - |done|], width, blend);
      }
    }
  }

  /** After drawing the first `k` slices of a stacked layout onto the transparent
      canvas, the canvas holds those slices stacked, followed by the rows not yet
      drawn on, which are still transparent. */
  lemma {:induction false} CompositePrefix(layers: seq<Image>, placements: seq<Placement>,
                                           metas: seq<SliceMeta>, width: nat,
                                           blend: (Rgba, Rgba) -> Rgba, k: nat)
    requires Fits(layers, metas, width) && Stacked(placements, metas)
    requires KeepsOverTransparent(blend)
    requires k <= |layers|
    ensures Top(metas, k) <= SumHeights(metas)
    ensures CompositeAll(Blank(width, SumHeights(metas), Transparent), layers[..k], placements[..k], blend)
            == Concat(layers[..k]) + Blank(width, SumHeights(metas) - Top(metas, k), Transparent)
  {
    var total := SumHeights(metas);
    var canvas := Blank(width, total, Transparent);
    assert Top(metas, k) <= total by {
      TopMonotone(metas, k, |metas|);
      assert metas[..|metas|] == metas;
    }
    if k == 0 {
      assert canvas == [] + Blank(width, total - Top(metas, 0), Transparent);
    } else {
      var n := k - 1;
      var done := Concat(layers[..n]);
      var rest := total - Top(metas, n);
      var slice := layers[n];
      CompositePrefix(layers, placements, metas, width, blend, n);
      assert CompositeAll(canvas, layers[..k], placements[..k], blend)
             == Overlay(done + Blank(width, rest, Transparent), slice, Top(metas, n), 0, blend) by {
        assert layers[..k][..n] == layers[..n];
        assert placements[..k][..n] == placements[..n];
      }
      assert |done| == Top(metas, n) by {
        ConcatHeight(layers, metas, width, n);
      }
      assert Top(metas, k) == Top(metas, n) + |slice| by {
        TopStep(metas, n);
      }
      assert forall y :: 0 <= y < |slice| ==> |slice[y]| == width;
      OverlayOntoBlankTail(done, slice, width, rest, blend);
      assert Concat(layers[..k]) == done + slice by {
        assert layers[..k][..n] == layers[..n];
      }
    }
  }

  /** Compositing a stacked layout's slices over the transparent canvas yields
      exactly the slices stacked in input order: each canvas row is covered, and
      no transparent background row survives. */
  lemma CompositeIsStack(layers: seq<Image>, placements: seq<Placement>, metas: seq<SliceMeta>,
                         width: nat, blend: (Rgba, Rgba) -> Rgba)
    requires Fits(layers, metas, width) && Stacked(placements, metas)
    requires KeepsOverTransparent(blend)
    ensures CompositeAll(Blank(width, SumHeights(metas), Transparent), layers, placements, blend)
            == Concat(layers)
  {
    CompositePrefix(layers, placements, metas, width, blend, |layers|);
    assert layers[..|layers|] == layers;
    assert placements[..|placements|] == placements;
    assert metas[..|metas|] == metas;
  }

  /** Rows `Top(i)` up to `Top(i + 1)` of the stacked slices are slice `i`,
      pixel for pixel. */
  lemma SliceRegion(layers: seq<Image>, metas: seq<SliceMeta>, width: nat, i: nat)
    requires Fits(layers, metas, width)
    requires i < |layers|
    ensures Top(metas, i) + metas[i].height <= |Concat(layers)|
    ensures Concat(layers)[Top(metas, i)..Top(metas, i) + metas[i].height] == layers[i]
  {
    ConcatHeight(layers, metas, width, i);
    ConcatPrefix(layers, i + 1, |layers|);
    assert layers[..|layers|] == layers;
    assert layers[..i + 1][..i] == layers[..i];
    assert Concat(layers[..i + 1]) == Concat(layers[..i]) + layers[i];
  }

  // ---------------------------------------------------------------------------
  // The handler's layouts
  // ---------------------------------------------------------------------------

  /** Slice `i`'s decoded pixels agree with the dimensions the metadata call
      reports for its bytes. */
  predicate Decoded(layers: seq<Image>, buffers: seq<Buffer>, inspect: Buffer -> Option<SliceMeta>)
  {
    |layers| == |buffers| &&
    forall i :: 0 <= i < |buffers| ==>
      && inspect(buffers[i]).Some?
      && |layers[i]| == inspect(buffers[i]).value.height
      && forall y :: 0 <= y < |layers[i]| ==> |layers[i][y]| == inspect(buffers[i]).value.width
  }

  /** The image a successful `/stitch` request produces is its slices stacked
      top to bottom in input order, on a canvas exactly as wide as every slice
      and exactly as tall as all of them together. */
  lemma StitchedImageIsStack(body: Body, inspect: Buffer -> Option<SliceMeta>, layers: seq<Image>,
                             blend: (Rgba, Rgba) -> Rgba)
    requires Stitched(body, inspect).Ok?
    requires body.Slices? && Decoded(layers, body.buffers, inspect)
    requires KeepsOverTransparent(blend)
    ensures var layout := Stitched(body, inspect).value;
            && |layout.placements| == |layers|
            && Render(layout, layers, blend) == Concat(layers)
            && |Concat(layers)| == layout.canvas.height
            && forall y :: 0 <= y < layout.canvas.height ==> |Concat(layers)[y]| == layout.canvas.width
  {
    var buffers := body.buffers;
    var metas := InspectAll(buffers, inspect).value;
    var layout := StitchLayout(buffers, metas).value;
    var width := metas[0].width;
    assert layout.canvas.width == width && layout.canvas.height == SumHeights(metas)
           && layout.canvas.background == Transparent && Stacked(layout.placements, metas) by {
      LayoutGeometry(buffers, metas);
    }
    assert Fits(layers, metas, width) by {
      InspectAllSpec(buffers, inspect);
    }
    CompositeIsStack(layers, layout.placements, metas, width, blend);
    assert layers[..|layers|] == layers;
    assert metas[..|metas|] == metas;
    ConcatHeight(layers, metas, width, |layers|);
    ConcatRowWidth(layers, metas, width, |layers|);
  }

  /** Stitching a single slice gives back that slice's pixels unchanged. */
  lemma SingleSliceIdentity(buffer: Buffer, inspect: Buffer -> Option<SliceMeta>, slice: Image,
                            blend: (Rgba, Rgba) -> Rgba)
    requires Decoded([slice], [buffer], inspect)
    requires KeepsOverTransparent(blend)
    ensures Stitched(Slices([buffer]), inspect).Ok?
    ensures Render(Stitched(Slices([buffer]), inspect).value, [slice], blend) == slice
  {
    assert inspect([buffer][0]).Some?;
    InspectAllSpec([buffer], inspect);
    StitchedImageIsStack(Slices([buffer]), inspect, [slice], blend);
    assert [slice][..0] == [];
  }

  /** Two 50-pixel-wide slices, 30 rows of opaque red over 20 rows of opaque
      blue, give a 50 x 50 image whose first 30 rows are red and last 20 blue. */
  lemma RedOverBlue(blend: (Rgba, Rgba) -> Rgba)
    requires KeepsOverTransparent(blend)
    ensures var red, blue := Rgba(255, 0, 0, 255), Rgba(0, 0, 255, 255);
            var top: Buffer, bottom: Buffer := [1], [2];
            var inspect := (b: Buffer) => if b == top then Some(SliceMeta(50, 30)) else Some(SliceMeta(50, 20));
            var r := Stitched(Slices([top, bottom]), inspect);
            && r.Ok?
            && r.value.canvas == CanvasSpec(50, 50, 4, Transparent)
            && Render(r.value, [Blank(50, 30, red), Blank(50, 20, blue)], blend)
               == Blank(50, 30, red) + Blank(50, 20, blue)
  {
    var red, blue := Rgba(255, 0, 0, 255), Rgba(0, 0, 255, 255);
    var top: Buffer, bottom: Buffer := [1], [2];
    var inspect := (b: Buffer) => if b == top then Some(SliceMeta(50, 30)) else Some(SliceMeta(50, 20));
    var layers := [Blank(50, 30, red), Blank(50, 20, blue)];
    var body := Slices([top, bottom]);
    InspectAllSpec([top, bottom], inspect);
    var metas := InspectAll([top, bottom], inspect).value;
    assert metas == [SliceMeta(50, 30), SliceMeta(50, 20)];
    assert metas[..1] == [SliceMeta(50, 30)];
    assert Decoded(layers, body.buffers, inspect);
    StitchedImageIsStack(body, inspect, layers, blend);
    assert layers[..1] == [layers[0]];
    assert layers[..1][..0] == [];
    assert Concat(layers[..1]) == layers[0];
    assert Concat(layers) == layers[0] + layers[1];
  }
}
