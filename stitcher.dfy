/** The `/stitch` handler of the image stitcher: it validates an ordered list of
    image slices, sizes a transparent RGBA canvas to hold them stacked top to
    bottom, and lays out one placement per slice at the running total of the
    heights above it. Decoding, compositing and PNG encoding are done by an image
    library and appear here only as parameters (`inspect`, `render`). */
module Stitcher {
  import opened Wrappers

  /** One slice's bytes, after base64 decoding; opaque to the layout logic. */
  type Buffer = seq<bv8>

  /** The `slices` field of the request body: either not an array at all, or an
      array of (already base64-decoded) slices. */
  datatype Body = NotAnArray | Slices(buffers: seq<Buffer>)

  /** What the image library's metadata call reports for one slice. */
  datatype SliceMeta = SliceMeta(width: nat, height: nat)

  /** A background colour: red, green, blue and alpha channels. */
  datatype Rgba = Rgba(r: nat, g: nat, b: nat, alpha: nat)

  /** Black with alpha 0: the fully transparent canvas background. */
  const Transparent: Rgba := Rgba(0, 0, 0, 0)

  /** The options of the image library's `create` call for the blank canvas. */
  datatype CanvasSpec = CanvasSpec(width: nat, height: nat, channels: nat, background: Rgba)

  /** One entry of the composite list: the slice to draw and its offsets. */
  datatype Placement = Placement(input: Buffer, top: nat, left: nat)

  /** Everything the handler hands to the image library on success. */
  datatype Layout = Layout(canvas: CanvasSpec, placements: seq<Placement>)

  /** Why a request failed: the input check (before the try block), a slice the
      metadata call rejects, or a slice whose width is not the first one's. */
  datatype StitchError = InvalidInput | MetadataFailed | WidthMismatch

  datatype Result<T> = Ok(value: T) | Err(error: StitchError)

  /** The HTTP answer: a status code and, on success only, the PNG bytes. */
  datatype Response = Response(status: nat, png: Option<Buffer>)

  // ---------------------------------------------------------------------------
  // Specification: prefix sums of the slice heights
  // ---------------------------------------------------------------------------

  /** The sum of the heights of `metas`, accumulated from the front as the
      handler's loop does (the last slice is added last). */
  function SumHeights(metas: seq<SliceMeta>): nat
  {
    if metas == [] then 0 else SumHeights(metas[..|metas| - 1]) + metas[|metas| - 1].height
  }

  /** The top offset of slice `i`: the total height of the slices above it. */
  function Top(metas: seq<SliceMeta>, i: nat): nat
    requires i <= |metas|
  {
    SumHeights(metas[..i])
  }

  /** Every slice in `metas` is `w` pixels wide. */
  predicate SameWidth(metas: seq<SliceMeta>, w: nat)
  {
    forall i :: 0 <= i < |metas| ==> metas[i].width == w
  }

  /** The placement list of the stacked layout: slice `i` at column 0 and at the
      total height of slices `0..i-1`. */
  function Placements(buffers: seq<Buffer>, metas: seq<SliceMeta>): seq<Placement>
    requires |buffers| == |metas|
  {
    seq(|buffers|, i requires 0 <= i < |buffers| => Placement(buffers[i], Top(metas, i), 0))
  }

  /** The layout of the slices once their metadata is known, or why there is none. */
  function StitchLayout(buffers: seq<Buffer>, metas: seq<SliceMeta>): Result<Layout>
    requires |buffers| == |metas|
  {
    if metas == [] then Err(InvalidInput)
    else if !SameWidth(metas, metas[0].width) then Err(WidthMismatch)
    else Ok(Layout(CanvasSpec(metas[0].width, SumHeights(metas), 4, Transparent),
                   Placements(buffers, metas)))
  }

  /** The metadata of every slice, all or nothing: one failing slice rejects the
      whole batch, as waiting on all the metadata promises together does. */
  function InspectAll(buffers: seq<Buffer>, inspect: Buffer -> Option<SliceMeta>): (r: Option<seq<SliceMeta>>)
    ensures r.Some? ==> |r.value| == |buffers|
  {
    if buffers == [] then Some([])
    else
      match (inspect(buffers[0]), InspectAll(buffers[1..], inspect))
      case (Some(m), Some(ms)) => Some([m] + ms)
      case _ => None
  }

  /** The batch succeeds exactly when every slice's metadata does, and then it
      holds each slice's metadata at that slice's position. */
  lemma {:induction false} InspectAllSpec(buffers: seq<Buffer>, inspect: Buffer -> Option<SliceMeta>)
    ensures InspectAll(buffers, inspect).Some? <==> forall i :: 0 <= i < |buffers| ==> inspect(buffers[i]).Some?
    ensures InspectAll(buffers, inspect).Some? ==>
              forall i :: 0 <= i < |buffers| ==> inspect(buffers[i]) == Some(InspectAll(buffers, inspect).value[i])
  {
    if buffers != [] {
      var tail := buffers[1..];
      InspectAllSpec(tail, inspect);
      assert forall i :: 1 <= i < |buffers| ==> buffers[i] == tail[i - 1];
    }
  }

  /** What the handler computes for a request body: the reference definition
      that method `Stitch` is proved against. */
  function Stitched(body: Body, inspect: Buffer -> Option<SliceMeta>): Result<Layout>
  {
    match body
    case NotAnArray => Err(InvalidInput)
    case Slices(buffers) =>
      if buffers == [] then Err(InvalidInput)
      else
        match InspectAll(buffers, inspect)
        case None => Err(MetadataFailed)
        case Some(metas) => StitchLayout(buffers, metas)
  }

  // ---------------------------------------------------------------------------
  // The handler
  // ---------------------------------------------------------------------------

  /** The body of the `/stitch` handler up to the image library's `create` call:
      the input check, the width check with the height sum, and the loop that
      builds the composite list from a running offset. */
  method Stitch(body: Body, inspect: Buffer -> Option<SliceMeta>) returns (r: Result<Layout>)
    ensures r == Stitched(body, inspect)
  {
    if body.NotAnArray? || |body.buffers| == 0 {
      return Err(InvalidInput);
    }
    var buffers := body.buffers;
    var inspected := InspectAll(buffers, inspect);
    if inspected.None? {
      return Err(MetadataFailed);
    }
    var metadata := inspected.value;
    ghost var spec := StitchLayout(buffers, metadata);
    assert Stitched(body, inspect) == spec;

    var finalWidth := metadata[0].width;
    var totalHeight := 0;
    for k := 0 to |metadata|
      invariant totalHeight == Top(metadata, k)
      invariant forall j :: 0 <= j < k ==> metadata[j].width == finalWidth
    {
      if metadata[k].width != finalWidth {
        assert !SameWidth(metadata, metadata[0].width);
        return Err(WidthMismatch);
      }
      TopStep(metadata, k);
      totalHeight := totalHeight + metadata[k].height;
    }
    assert totalHeight == SumHeights(metadata) by {
      assert metadata[..|metadata|] == metadata;
    }

    var currentY := 0;
    var compositeImages: seq<Placement> := [];
    for i := 0 to |buffers|
      invariant currentY == Top(metadata, i)
      invariant |compositeImages| == i
      invariant forall j :: 0 <= j < i ==> compositeImages[j] == Placement(buffers[j], Top(metadata, j), 0)
    {
      compositeImages := compositeImages + [Placement(buffers[i], currentY, 0)];
      TopStep(metadata, i);
      currentY := currentY + metadata[i].height;
    }

    assert compositeImages == Placements(buffers, metadata);
    r := Ok(Layout(CanvasSpec(finalWidth, totalHeight, 4, Transparent), compositeImages));
    assert r == spec;
  }

  /** The HTTP status and payload for a handler outcome; `render` stands for the
      image library's create, composite and PNG encoding, which may fail. */
  function Respond(r: Result<Layout>, render: Layout -> Option<Buffer>): (resp: Response)
    ensures resp.png.Some? <==> resp.status == 200
    ensures resp.status == 200 <==> r.Ok? && render(r.value).Some?
    ensures resp.status == 200 ==> resp.png == render(r.value)
    ensures resp.status == 400 <==> r == Err(InvalidInput)
    ensures resp.status == 500 <==> (r.Err? && r.error != InvalidInput) || (r.Ok? && render(r.value).None?)
  {
    match r
    case Err(InvalidInput) => Response(400, None)
    case Err(_) => Response(500, None)
    case Ok(layout) =>
      match render(layout)
      case Some(png) => Response(200, Some(png))
      case None => Response(500, None)
  }

  // ---------------------------------------------------------------------------
  // Properties of the layout
  // ---------------------------------------------------------------------------

  /** A missing, non-array or empty slice list is answered with 400, whatever the
      image library would have said about any slice. */
  lemma RejectsEmptyInput(body: Body, inspect: Buffer -> Option<SliceMeta>, render: Layout -> Option<Buffer>)
    ensures Respond(Stitched(body, inspect), render).status == 400
            <==> body.NotAnArray? || body.buffers == []
    ensures body.NotAnArray? || body.buffers == [] ==> Stitched(body, inspect) == Err(InvalidInput)
  {
    if body.Slices? && body.buffers != [] {
      match InspectAll(body.buffers, inspect)
      case None =>
      case Some(metas) =>
        assert metas != [];
    }
  }

  /** The layout succeeds exactly when some slice exists and all slices share the
      first slice's width; a differing width rejects it with no layout at all. */
  lemma LayoutSucceedsIff(buffers: seq<Buffer>, metas: seq<SliceMeta>)
    requires |buffers| == |metas|
    ensures StitchLayout(buffers, metas).Ok? <==> metas != [] && SameWidth(metas, metas[0].width)
    ensures metas != [] && (exists k :: 0 <= k < |metas| && metas[k].width != metas[0].width)
            ==> StitchLayout(buffers, metas) == Err(WidthMismatch)
  {
  }

  /** On success the canvas is as wide as the first slice, as high as all slices
      together, has four channels and a transparent background; there is one
      placement per slice, in input order, carrying that slice at column 0 and at
      the prefix sum of the heights above it. */
  lemma LayoutGeometry(buffers: seq<Buffer>, metas: seq<SliceMeta>)
    requires |buffers| == |metas|
    requires StitchLayout(buffers, metas).Ok?
    ensures var l := StitchLayout(buffers, metas).value;
            && l.canvas == CanvasSpec(metas[0].width, SumHeights(metas), 4, Rgba(0, 0, 0, 0))
            && |l.placements| == |buffers|
            && forall i :: 0 <= i < |buffers| ==>
                 l.placements[i] == Placement(buffers[i], SumHeights(metas[..i]), 0)
  {
  }

  /** The first slice sits at the top, and each next slice starts right where the
      previous one ends. */
  lemma {:induction false} TopStep(metas: seq<SliceMeta>, i: nat)
    requires i < |metas|
    ensures Top(metas, 0) == 0
    ensures Top(metas, i + 1) == Top(metas, i) + metas[i].height
  {
    assert metas[..i + 1][..i] == metas[..i];
  }

  /** Top offsets never decrease along the slice list. */
  lemma {:induction false} TopMonotone(metas: seq<SliceMeta>, i: nat, j: nat)
    requires i <= j <= |metas|
    ensures Top(metas, i) <= Top(metas, j)
  {
    if i < j {
      TopMonotone(metas, i, j - 1);
      TopStep(metas, j - 1);
    }
  }

  /** The last slice ends exactly at the bottom of the canvas. */
  lemma LastSliceEndsAtBottom(metas: seq<SliceMeta>)
    requires metas != []
    ensures Top(metas, |metas| - 1) + metas[|metas| - 1].height == SumHeights(metas)
  {
    TopStep(metas, |metas| - 1);
    assert metas[..|metas|] == metas;
  }

  /** The rows of two different slices do not overlap: an earlier slice ends at
      or above the top of a later one. */
  lemma PlacementsDisjoint(metas: seq<SliceMeta>, i: nat, j: nat)
    requires i < j < |metas|
    ensures Top(metas, i) + metas[i].height <= Top(metas, j)
  {
    TopStep(metas, i);
    TopMonotone(metas, i + 1, j);
  }

  /** Every canvas row lies in the rows of some slice: together with
      PlacementsDisjoint, each row belongs to exactly one slice, so the
      placements tile the canvas with no gap. */
  lemma {:induction false} PlacementsCover(metas: seq<SliceMeta>, y: nat)
    requires y < SumHeights(metas)
    ensures exists i :: 0 <= i < |metas| && Top(metas, i) <= y < Top(metas, i) + metas[i].height
  {
    var n := |metas|;
    LastSliceEndsAtBottom(metas);
    if y >= Top(metas, n - 1) {
      assert Top(metas, n - 1) <= y < Top(metas, n - 1) + metas[n - 1].height;
    } else {
      var prefix := metas[..n - 1];
      assert y < SumHeights(prefix);
      PlacementsCover(prefix, y);
      var i :| 0 <= i < |prefix| && Top(prefix, i) <= y < Top(prefix, i) + prefix[i].height;
      assert prefix[..i] == metas[..i];
    }
  }
}
