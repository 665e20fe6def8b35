# Image stitcher and video upload checks

This project is a Dafny model of two small services and proofs about them.

- **The image stitcher's `/stitch` handler** (`testprojs/image-stitcher/index.js`). It takes an ordered list of image slices. It rejects an empty or non-array list with 400. It takes the first slice's width as the canvas width and fails with 500 if any slice has a different width. It sums the slice heights into the canvas height. It builds one composite entry `{input, top, left}` per slice, with `left = 0` and `top` equal to the running total of the heights above that slice. The slices are then drawn onto a transparent 4-channel canvas, and the canvas is encoded as PNG.
- **The video upload service** (`testprojs/app_videoupload/dockerconfig/app.py`). `allowed_file` accepts a name when it contains a `.` and the text after its last `.`, lower-cased, is one of seven video extensions. Two routes, `upload_ajax` and `upload_ajax_error`, check the request in a fixed order and answer with a status code and a `success` flag.

Modules:

- `Wrappers` (`wrappers.dfy`): the `Option` type.
- `Stitcher` (`stitcher.dfy`): the handler, with its data and layout properties.
  - `Stitch` is the handler's imperative core. It mirrors the two `for` loops with their accumulators `totalHeight` and `currentY` and the growing `compositeImages` list.
  - `Stitch` is proved equal to the pure specification `Stitched`/`StitchLayout`, whose offsets are prefix sums (`Top`, `SumHeights`).
  - Lemmas about that specification prove the tiling facts: the first top is 0, each next top is the previous top plus that slice's height, tops never decrease, slices do not overlap, every canvas row is covered, and the last slice ends at the bottom of the canvas.
- `Compositing` (`compositing.dfy`): an abstract pixel model of what the image library does with a layout. An image is a list of rows of RGBA values. The blend mode is a parameter, and the only thing assumed of it is that drawing a pixel over a fully transparent pixel leaves the drawn pixel unchanged. The library's own premultiplied `over` blend meets this except for the hidden colour of fully transparent pixels (see "Left out"). The main result is that rendering any successful layout gives exactly the slices stacked in input order. Corollaries cover each slice's region, a single slice coming back unchanged, and a concrete red-over-blue example.
- `VideoUpload` (`upload.dfy`): `AllowedFile`, with the text after the last dot (`AfterLastDot`) and lower-casing (`Lower`), plus the two routes as pure functions.
  - The outcome of saving the file is a boolean input.
  - `AllowedFile`'s contract states that it is equivalent to an independent description ("there is a dot with no dot after it, and the lower-cased text after it is allowed").
  - Further lemmas show that only the last extension counts, that upper-casing ASCII letters changes nothing, and how a set of example names are decided.

Points where the model follows the code rather than what might be expected of such a service:

- A width mismatch is thrown inside the `try` block and answered with status 500. It is not treated as a caller error with a 400 (`index.js:30-34, 69-71`).
- The error carries a fixed message, not the index or widths of the offending slice.
- Heights of zero are allowed: nothing checks them.
- Swapping two different slices does not always change the image. For example, a slice of one row `x` and a slice of two rows `x, x` stack to the same image in either order. So no order-sensitivity property is claimed.

Python's `str.lower` is modelled only for the characters that can matter to an ASCII-only extension set:

- `A`-`Z` become `a`-`z`.
- KELVIN SIGN (U+212A) becomes `k`, so `clip.mKv` is accepted.
- Every other character is kept unchanged. Its real lower-case form contains no ASCII letter, or, for U+0130 (capital I with dot above), is `i` followed by the combining dot U+0307. That dot is not ASCII and stays in the result, so keeping the character cannot change membership either way.

## Model

| member | source | states |
|---|---|---|
| `Stitcher.Stitch` | testprojs/image-stitcher/index.js:13-58 | The handler's input check, width-check/height-sum loop and placement loop return exactly the reference result `Stitched`: 400-class rejection of a non-array or empty list, all-or-nothing metadata failure, `WidthMismatch` when any slice's width differs from the first, otherwise a canvas of the first width, the summed height, 4 channels, transparent background and the prefix-sum placements |
| `Stitcher.InspectAll` | testprojs/image-stitcher/index.js:22-23 | Collecting every slice's metadata yields, when it succeeds, one entry per slice |
| `Stitcher.InspectAllSpec` | testprojs/image-stitcher/index.js:22-23 | The metadata batch succeeds if and only if every slice's metadata call succeeds, and then entry `i` is slice `i`'s metadata |
| `Stitcher.Respond` | testprojs/image-stitcher/index.js:60-71 | A PNG is returned exactly when the status is 200, which happens exactly when the layout succeeded and rendering succeeded, and the body is then the rendered PNG the library returned; 400 exactly for the input-shape rejection; 500 for every other failure; no partial output on any error |
| `Stitcher.RejectsEmptyInput` | testprojs/image-stitcher/index.js:13-15 | The response is 400 if and only if the slices are not an array or the array is empty, and then the result does not depend on any slice metadata |
| `Stitcher.LayoutSucceedsIff` | testprojs/image-stitcher/index.js:26-34 | A layout exists if and only if there is a slice and all slices have the first slice's width; any slice of another width yields `WidthMismatch` |
| `Stitcher.LayoutGeometry` | testprojs/image-stitcher/index.js:39-58 | On success the canvas is first-slice wide, sum-of-heights tall, 4-channel with background (0,0,0,0); there is one placement per slice in input order carrying `buffers[i]`, `left = 0` and `top` = the heights of slices `0..i-1` |
| `Stitcher.TopStep` | testprojs/image-stitcher/index.js:39-49 | The first top is 0 and `top[i+1] = top[i] + height[i]` |
| `Stitcher.TopMonotone` | testprojs/image-stitcher/index.js:39-49 | Placement tops never decrease along the list |
| `Stitcher.LastSliceEndsAtBottom` | testprojs/image-stitcher/index.js:27-49 | The last slice's top plus its height equals the total height: `currentY` ends equal to `totalHeight` |
| `Stitcher.PlacementsDisjoint` | testprojs/image-stitcher/index.js:42-49 | An earlier slice ends at or above the top of any later slice: no overlap |
| `Stitcher.PlacementsCover` | testprojs/image-stitcher/index.js:42-49 | Every row below the total height lies inside some slice's rows: no gap |
| `Compositing.CompositeAll` | testprojs/image-stitcher/index.js:60 | Compositing the list onto a canvas keeps the canvas's height and each row's width, and leaves every row that no layer's rows reach unchanged |
| `Compositing.Render` | testprojs/image-stitcher/index.js:52-60 | The rendered image is exactly canvas-high and every row canvas-wide; a row no slice reaches is the background colour all along |
| `Compositing.CompositePrefix` | testprojs/image-stitcher/index.js:52-60 | After drawing the first `k` slices at their placements onto the transparent canvas, the canvas is those slices stacked followed by still-transparent rows |
| `Compositing.CompositeIsStack` | testprojs/image-stitcher/index.js:52-60 | Drawing all slices of a stacked layout over the transparent canvas gives exactly the concatenation of the slices' rows |
| `Compositing.SliceRegion` | testprojs/image-stitcher/index.js:42-49 | Rows `top[i]` up to `top[i] + height[i]` of the stacked image are slice `i`, pixel for pixel |
| `Compositing.StitchedImageIsStack` | testprojs/image-stitcher/index.js:26-60 | For any successful request whose decoded slices match their metadata, the rendered canvas is the slices stacked in input order, exactly canvas-high, every row canvas-wide |
| `Compositing.SingleSliceIdentity` | testprojs/image-stitcher/index.js:26-60 | Stitching a single slice succeeds and returns that slice unchanged |
| `Compositing.RedOverBlue` | testprojs/image-stitcher/index.js:26-60 | Two 50-wide slices, 30 red rows and 20 blue rows, give a 50 x 50 transparent-background canvas rendered as 30 red rows over 20 blue rows |
| `VideoUpload.AfterLastDot` | testprojs/app_videoupload/dockerconfig/app.py:17 | `rsplit('.', 1)[1]`: a suffix of the name that contains no dot and is immediately preceded by a dot |
| `VideoUpload.LastDotUnique` | testprojs/app_videoupload/dockerconfig/app.py:17 | Any dot with no dot after it is the split point: the extension is the text after it |
| `VideoUpload.AllowedFile` | testprojs/app_videoupload/dockerconfig/app.py:16-17 | A name is allowed if and only if it has a dot with no later dot and the lower-cased text after it is in the extension set |
| `VideoUpload.NoDotNotAllowed` | testprojs/app_videoupload/dockerconfig/app.py:17 | A name without a dot, the empty name included, is never allowed |
| `VideoUpload.OnlyLastExtensionMatters` | testprojs/app_videoupload/dockerconfig/app.py:17 | `stem + "." + ext` with a dot-free `ext` is allowed if and only if the lower-cased `ext` is allowed, whatever the stem |
| `VideoUpload.AllowedFileIgnoresCase` | testprojs/app_videoupload/dockerconfig/app.py:17 | Upper-casing a name's ASCII letters does not change whether it is allowed (full Unicode upper-casing can: the dotless `ı` in `clip.avı` is rejected, `CLIP.AVI` accepted) |
| `VideoUpload.LastExtensionExamples` | testprojs/app_videoupload/dockerconfig/app.py:7 | `clip.tar.mp4` and `.mp4` are allowed: `mp4` is in the extension set and only the last extension counts |
| `VideoUpload.CaseExamples` | testprojs/app_videoupload/dockerconfig/app.py:17 | `CLIP.MP4`, and `clip.mkv` written with a Kelvin sign for the `k`, are allowed |
| `VideoUpload.RejectedExamples` | testprojs/app_videoupload/dockerconfig/app.py:17 | `clip.mp4.exe`, `clip.` (empty extension) and `clip` are rejected |
| `VideoUpload.Rejection` | testprojs/app_videoupload/dockerconfig/app.py:21-28 | The shared guard ladder lets a request through if and only if a file part is present and its name is allowed; every rejection is a 400 with `success` false |
| `VideoUpload.UploadAjax` | testprojs/app_videoupload/dockerconfig/app.py:20-45 | `success` holds exactly when the status is 200; 200 exactly for an allowed file whose save succeeds, 500 exactly for an allowed file whose save raises, 400 exactly otherwise |
| `VideoUpload.UploadAjaxError` | testprojs/app_videoupload/dockerconfig/app.py:49-73 | Never `success`; 500 exactly for an allowed file, 400 otherwise |
| `VideoUpload.FirstFailingCheckWins` | testprojs/app_videoupload/dockerconfig/app.py:21-45 | A missing part gives "No file part", else an empty name gives "No selected file", else a disallowed name gives "Invalid file type.", all with 400 |
| `VideoUpload.RoutesAgreeOnRejection` | testprojs/app_videoupload/dockerconfig/app.py:51-73 | The error route answers a rejected request exactly as the normal route does |

## Left out

- Base64 decoding of the slices (`Buffer.from`), Express routing, the 50 MB JSON body limit, response headers, logging and `app.listen`. These are transport plumbing. The model starts from the already-decoded slice buffers.
- The image library's metadata call is the parameter `inspect`. The `Promise.all` fan-out is the all-or-nothing `InspectAll`. Its concurrency is not modelled.
- A `slices` array holding elements `Buffer.from` rejects (numbers, booleans, `null`, objects that are neither array-like nor buffer-shaped), which makes it throw (500), is not modelled, and neither is metadata without a numeric width or height. Elements it accepts are opaque `Buffer` values here.
- Slice widths and heights are unbounded naturals. JavaScript's double-precision numbers lose precision above 2^53, and that is not modelled.
- Creating the canvas, compositing and PNG encoding are the parameter `render` in `Respond`, which may fail (500). When the library fails, for instance on a zero-height canvas, is not modelled.
- The pixels those library calls produce are modelled separately in `Compositing` (`Render`), and only abstractly. Decoded slices are lists of rows. The blend mode is any operation that keeps a pixel drawn over a transparent one, and the arithmetic of the library's "over" blending is not modelled.
- CompositeIsStack, StitchedImageIsStack, SingleSliceIdentity: these pixel-exact results hold for the real library only up to the colour of fully transparent slice pixels. Its `over` blend works on premultiplied alpha, so a slice pixel `(r, g, b, 0)` comes out as `(0, 0, 0, 0)`; the model's blend assumption keeps it as it was.
- `secure_filename`, `os.makedirs`, `url_for`, `render_template`, the two page routes, the 100 MB `MAX_CONTENT_LENGTH` limit and `print` are not modelled.
  - These are Flask and Werkzeug calls or filesystem effects.
  - A `file.save` or `url_for` call that raises is the boolean `saved`.
  - The success message names the sanitised file, and that text is not modelled.
- Lower: only the characters that can change membership in the ASCII-only extension set are lower-cased (A-Z and the Kelvin sign). Other characters are kept as they are rather than mapped to their real lower-case forms.
- `file and ...` in both routes is not modelled as a separate check. An uploaded file object is truthy exactly when its name is non-empty, which the check before it already ensured.
