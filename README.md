# MoldVision detection core, modelled in Dafny

MoldVision finds mould on photographs of walls. It takes a colour image, downscales it and
converts it to gray. It then builds a texture map (the multi-scale local variance) and
thresholds it. The candidate regions are filtered by 8-connected component: by area, and
optionally by the uniformity of their LBP (local binary pattern) codes. The mask is then
cleaned with morphology and drawn as a red overlay on the original image.

This project models that pipeline (`app/pipeline/processor.py`), together with:

- its enumerations and default records (`app/defs.py`);
- the two image stores of the applications (`app/state.py`, `gui/state.py`);
- the IoU scorer and the overlay of the evaluation script (`validation.py`);
- the older command-line pipeline (`Processor.py`);
- the extension check of the GUI loader (`gui/utils/image_loader.py`).

The model follows the code. Images are row-major grids (`seq<seq<T>>`), colour pixels are
`Bgr(b, g, r)`, and Python's exceptions are the `Err` case of a `Result`.

OpenCV, numpy and scikit-image calls are parameters, each typed with only the facts the
code relies on. These facts are mostly shape: for example, `morphologyEx` returns a grid of
its input's shape, and `resize` returns the requested shape. The parameters are bundled in
`Cv.Library`, which also carries the `_HAS_SKIMG` flag.

The connected-component labelling that `cv2.connectedComponentsWithStats` performs is
written out in the `Components` module as a flood fill. It is proved to give one label per
8-connected component, together with the component's area.

## Modules

| file | module | models |
|---|---|---|
| wrappers.dfy | Wrappers | Option, and Result with the exceptions raised: ValueError, ZeroDivisionError, FileNotFoundError, and cv2.error |
| grid.dfy | Grid | images as grids; counts, sums and means |
| cv.dfy | Cv | the foreign kernels, as typed parameters |
| defs.dfy | Defs | EXTS, PREPROCESS_METHODS, DETECT_METHODS, TH_MODES, the default records |
| convert.dfy | Convert | the five grayscale formulas; the downscale-only resize |
| sizes.dfy | Sizes | kernel-size coercion; `_get_scales` |
| variance.dfy | Variance | `_variance_multiscale`, `_compute_threshold`, binarisation, `_estimate_texture_level` |
| components.dfy | Components | 8-connected labelling with areas |
| filters.dfy | Filters | `_filter_components_by_area`, `_refine_with_lbp` |
| paint.dfy | Paint | masked assignment `dst[sel] = src[sel]` |
| processor.dfy | Processor | `preprocess`, `detect`, the four detectors, `_morph_refine`, `_apply_mask` |
| selection.dfy | Selection | the active-index rule both stores share |
| app_state.dfy | AppStore | `app/state.py`: ImageState, and AppState with listeners |
| gui_state.dfy | GuiStore | `gui/state.py`: ImageState, and AppState without listeners |
| validation.dfy | Validation | `iou`, `overlay_mask` |
| legacy.dfy | Legacy | `Processor.py`'s `execute`, `load_imgs`, `detect_background_brightness`, `detect_mold_texture` |
| loader.dfy | Loader | `load_image`'s extension gate |

## Where the model departs from the documentation, following the code

- **`custom` is an input.** `preprocess` and `detect` read `img_st.custom`
  (app/pipeline/processor.py:28, 54), but `ImageState` declares no such field. The model
  takes `custom` as an explicit boolean input.
- **`info` is set up front.** `info` is created in Python by its first assignment. The model
  declares it as a field and initialises it to "".
- **`var_lbp` does not force the LBP filter.** It runs the same variance core as `variance`.
  Whether the LBP filter runs depends only on `use_lbp` (app/pipeline/processor.py:95-96,
  160). `Processor.DispatchAcceptsDetectMethods` proves the two names give the same result.
- **Automatic detection always uses the variance core** (app/pipeline/processor.py:59-60).
- **The area filter runs before morphology** (app/pipeline/processor.py:157-164).
- **The size fallbacks differ.** An adaptive block size below 3 becomes 31, and an
  edge-density window below 3 becomes 9 (app/pipeline/processor.py:175-176, 201-202). The
  scales and the structuring element fall back to 3.
- **`preprocess` does not store its result.** It returns `(gray, texture)` and stores
  nothing in `img_st.preprocessed`. It returns None when there is no original image.
- **`ImageState.preprocessed` is never None.** Its default is a `PreprocessedImage` record,
  so only `preprocessed.img` can be None.
- **Removing any image moves the selection back.** `remove_image` moves the active index one
  step back even when the removed image lies after the active one
  (`Selection.RemoveAfterMovesActive`).
- **The legacy texture mask is not returned.** `detect_mold_texture` in `Processor.py` builds
  a mask only for a medium background, and its `return mask` is commented out, so it
  returns None. `Legacy.TextureMask` exposes the mask that it builds.
- **The legacy structuring element is used as given.** The legacy pipeline passes the
  element size 8 to the ellipse unchanged. The application's `_morph_refine` coerces sizes
  to odd ones.
- **Two copies of the extension list.** `EXTS` exists twice, in app/defs.py:5-9 and in
  gui/utils/image_loader.py:4, with the same three entries. The model uses `Defs.Exts` for
  both.

## Model

| member | source | states |
|---|---|---|
| Defs.DefaultPreprocessedImage | app/defs.py:34-37 | no gray image yet, texture "low_txt" (the first level) |
| Defs.DefaultPreprocessParams | app/defs.py:40-45 | gray_method is the first entry of PREPROCESS_METHODS ("weighted"), CLAHE off |
| Defs.DefaultDetectParams | app/defs.py:48-70 | method is the first detector ("variance"), th_mode the first mode ("percentile"), no user scales, LBP off |
| Defs.EnumerationsDistinct | app/defs.py:11-31 | the enumeration lists hold distinct names |
| Defs.DefaultsConsistent | app/defs.py:54-69 | min_area < max_area, edge_t1 <= edge_t2, the percentile 85 lies in the clamp band [50, 99.5], and elemsize, block_size and edge_kernel are odd and >= 3 |
| Convert.ToGrayscale | app/pipeline/processor.py:122-140 | succeeds exactly for the five PREPROCESS_METHODS names and keeps the image's shape; any other name is ValueError("Unknown method: "+name) |
| Convert.AverageAtMost85 | app/pipeline/processor.py:128-129 | "average" wraps the uint8 channel sum modulo 256 before dividing, so every output is in [0, 85] |
| Convert.AveragePixel | app/pipeline/processor.py:128-129 | the "average" pixel: the channel sum wrapped modulo 256, divided by 3 and truncated; its range is stated by Convert.AverageAtMost85 |
| Convert.MaxMinBracketChannels | app/pipeline/processor.py:131-135 | "max" is the largest channel and "min" the smallest, so min <= every channel <= max at every pixel |
| Convert.LuminosityIsByte | app/pipeline/processor.py:137-138 | the luminosity formula maps 8-bit colour pixels to 8-bit gray values |
| Convert.LuminosityPixel | app/pipeline/processor.py:137-138 | the "luminosity" pixel: 0.21 r + 0.72 g + 0.07 b truncated, in exact arithmetic; its range is stated by Convert.LuminosityIsByte |
| Convert.ScaledShape | app/pipeline/processor.py:352-354 | the resized shape never grows on either side, and its longest side is exactly 1024 |
| Convert.ScaleImg | app/pipeline/processor.py:350-355 | fails exactly for an image with no rows (ZeroDivisionError) or one too thin to scale (cv2.error from resize's empty target size) |
| Convert.ScalesToNothing | app/pipeline/processor.py:352-354 | an image is too thin to scale when its longest side exceeds 1024 and its short side times 1024 is below the longest side |
| Convert.ThinIffZeroSide | app/pipeline/processor.py:352-354 | a side of the scaled shape is 0 exactly for an image too thin to scale |
| Convert.ThinImageRejected | app/pipeline/processor.py:352-354 | a 1 x 2000 image gets the target size 0 x 1024 and the scaling raises cv2.error |
| Convert.ScaleNeverUpscales | app/pipeline/processor.py:350-355 | the scaled image is rectangular, fits in the original and fits in 1024 x 1024 |
| Convert.ScaleKeepsSmall | app/pipeline/processor.py:352-355 | an image whose sides are both at most 1024 comes back unchanged |
| Sizes.KernelSize | app/pipeline/processor.py:326-328 | the coerced size is odd and at least 3; a size below 3 takes the fallback, any other becomes itself or the next number |
| Sizes.KernelSizeIsSmallestOdd | app/pipeline/processor.py:325-330 | with fallback 3, the size is the smallest odd number >= max(3, elemsize) |
| Sizes.KernelSizeIdempotent | app/pipeline/processor.py:240-243 | an odd size >= 3 is kept, so coercing twice changes nothing |
| Sizes.TextureScales | app/pipeline/processor.py:247-255 | every texture level gives three window sizes, each odd and at least 3 |
| Sizes.TextureScalesGrow | app/pipeline/processor.py:249-255 | a higher texture level gives strictly larger windows, entry by entry |
| Sizes.Scales | app/pipeline/processor.py:233-255 | non-empty user scales keep their length and order and are coerced entry by entry; otherwise the texture table; every size is odd and >= 3 |
| Sizes.GetScales | app/pipeline/processor.py:233-245 | the append loop builds exactly Sizes.Scales |
| Variance.CombinedVarIsMax | app/pipeline/processor.py:262-269 | at every pixel the combined map is at least the local variance at each scale, and equals it at one of them |
| Variance.ClippedWithinPercentiles | app/pipeline/processor.py:273-275 | every clipped sample lies between the 1st and the 99.5th percentile |
| Variance.VarianceMap | app/pipeline/processor.py:258-278 | the 8-bit texture map has the gray image's shape |
| Variance.VarianceMultiscale | app/pipeline/processor.py:258-278 | the running-maximum loop computes Variance.VarianceMap |
| Variance.ClampPercentile | app/pipeline/processor.py:89 | the clamped percentile lies in [50, 99.5] and is unchanged inside that band |
| Variance.ComputeThreshold | app/pipeline/processor.py:77-91 | "fixed" is fixed_th; "zscore" is the median plus z_k times 1.4826 times (MAD + 1e-6); any other mode is the percentile at the clamped rank; its properties are the five lemmas below |
| Variance.FixedIgnoresMap | app/pipeline/processor.py:78-79 | "fixed" returns fixed_th whatever the map |
| Variance.ZScoreAboveMedian | app/pipeline/processor.py:81-87 | with z_k >= 0 the z-score threshold is >= the median, and > it when z_k > 0 |
| Variance.PercentileWithinBand | app/pipeline/processor.py:89-91 | any other mode is the percentile at the clamped rank, between the 50th and 99.5th percentiles |
| Variance.PercentileMonotone | app/pipeline/processor.py:89-91 | raising the requested percentile never lowers the threshold |
| Variance.ZScoreMonotone | app/pipeline/processor.py:81-87 | raising z_k never lowers the z-score threshold |
| Variance.Binarize | app/pipeline/processor.py:156 | the mask holds only 0 and 255, and 255 exactly where the map exceeds the threshold |
| Variance.BinarizeInv | app/pipeline/processor.py:226 | the inverted mask holds only 0 and 255, and 255 exactly where the map is at most the threshold |
| Variance.BinarizeInvComplements | app/pipeline/processor.py:226 | the two thresholdings select complementary pixels |
| Variance.TextureFromTail | app/pipeline/processor.py:341-347 | every tail fraction, and the NaN of an empty map, is classed as one of the three texture levels |
| Variance.TextureMonotone | app/pipeline/processor.py:343-347 | a larger tail never gives a lower texture level |
| Variance.EstimateTextureLevel | app/pipeline/processor.py:339-347 | the level of the fraction of the 9 x 9 texture map above 60 |
| Components.ConnectedComponentsWithStats | app/pipeline/processor.py:282 | labels 1..num-1 cover the foreground; two foreground pixels share a label exactly when they are 8-connected; areas[k] counts label k |
| Components.FloodFill | app/pipeline/processor.py:282 | the stack-based fill from a foreground pixel returns exactly its 8-connected component |
| Components.SameComponent | app/pipeline/processor.py:282 | connected pixels have one and the same component |
| Filters.PaintLabel | app/pipeline/processor.py:294 | out[labels == k] = 255 sets exactly the pixels labelled k and keeps the rest |
| Filters.AreaFilter | app/pipeline/processor.py:281-296 | the area filter defined on components: 255 on every foreground pixel whose 8-connected component has an area within [min_ratio*A, max_ratio*A], 0 elsewhere; the output has the mask's shape |
| Filters.AreaFilterKeepsWholeComponents | app/pipeline/processor.py:281-296 | the output holds only 0 and 255 inside the input foreground; a foreground pixel is kept iff min_ratio*A <= area <= max_ratio*A; connected pixels are treated alike |
| Filters.PaintKeptAreas | app/pipeline/processor.py:287-294 | the loop over labels 1..num-1 paints 255 exactly on the labels whose area is in the band |
| Filters.AreaFilterFromLabels | app/pipeline/processor.py:281-296 | painting by label areas, under a complete labelling, is the component-wise area filter |
| Filters.FilterComponentsByArea | app/pipeline/processor.py:281-296 | the method's output is the area filter of its input |
| Filters.LbpFilter | app/pipeline/processor.py:299-322 | the LBP filter defined on components: 255 on every foreground pixel whose non-empty component has a share of uniform LBP codes of at most lbp_uniform_th, 0 elsewhere; the output has the mask's shape |
| Filters.LbpFilterIsSubmask | app/pipeline/processor.py:305-320 | the LBP filter's output holds only 0 and 255 inside the input foreground |
| Filters.LbpFilterDropsUniform | app/pipeline/processor.py:308-320 | a foreground component is non-empty and is dropped iff (#codes <= lbp_points)/size > lbp_uniform_th |
| Filters.LbpFilterKeepsWholeComponents | app/pipeline/processor.py:304-320 | connected pixels are kept or dropped together |
| Filters.PaintKeptLbp | app/pipeline/processor.py:305-320 | the loop over labels paints 255 exactly on the kept labels |
| Filters.LbpFilterFromLabels | app/pipeline/processor.py:299-322 | painting the kept labels, under a complete labelling, is the component-wise LBP filter |
| Filters.RefineWithLbp | app/pipeline/processor.py:299-322 | without scikit-image the mask is unchanged; otherwise the result is the LBP filter of the code map |
| Paint.Where | app/pipeline/processor.py:378 | each pixel comes from the first image where the selector holds, otherwise from the second |
| Paint.CopyWhere | validation.py:50 | the in-place masked assignment changes exactly the selected pixels, to their source values |
| Paint.Copy | validation.py:45 | img.copy(): a fresh buffer holding the image |
| Processor.MorphRefine | app/pipeline/processor.py:325-336 | the result has the mask's shape |
| Processor.MorphStages | app/pipeline/processor.py:325-336 | close first, then open, skipping a stage whose iteration count is <= 0, so (0, 0) returns the mask unchanged; the kernel is the ellipse of the coerced size |
| Processor.AutoGrayscale | app/pipeline/processor.py:110-119 | "weighted" iff the mean saturation is > 60, otherwise "luminosity"; always one of PREPROCESS_METHODS |
| Processor.Overlaid | app/pipeline/processor.py:358-380 | None iff no image; no mask gives the image itself; otherwise every pixel where the resized mask is 0 equals the image, and every other pixel is the red blend |
| Processor.OverlaidFromImage | app/pipeline/processor.py:358-380 | every output pixel is the original's or its red blend |
| Processor.ApplyMask | app/pipeline/processor.py:358-380 | the in-place copy-back computes Processor.Overlaid |
| Processor.Candidates | app/pipeline/processor.py:156-161 | the candidate mask has the texture map's shape |
| Processor.CandidatesAboveThreshold | app/pipeline/processor.py:156-161 | candidates hold only 0 and 255, and a 255 candidate lies above the threshold on the texture map |
| Processor.VarianceCoreResult | app/pipeline/processor.py:143-166 | the variance core's value: None without a gray image, otherwise the overlay of the thresholded, area-filtered, optionally LBP-filtered and morphologically refined mask |
| Processor.DetectVarianceCore | app/pipeline/processor.py:143-166 | threshold, area filter, optional LBP filter, morphology and overlay; the result is the value of the variance-core specification |
| Processor.AdaptiveResult | app/pipeline/processor.py:169-191 | the adaptive detector's value: None without a gray image, otherwise the overlay of the inverted adaptive threshold at block size Sizes.KernelSize(block_size, 31) after one close and one open |
| Processor.DetectAdaptive | app/pipeline/processor.py:169-191 | the method computes the adaptive detector's value: thresholding with block size Sizes.KernelSize(block_size, 31), then morphology and the overlay |
| Processor.EdgeResult | app/pipeline/processor.py:194-215 | the edge-density detector's value: None without a gray image, otherwise the overlay of the thresholded Canny density over a window of Sizes.KernelSize(edge_kernel, 9), after one close and one open |
| Processor.DetectEdgeDensity | app/pipeline/processor.py:194-215 | the method computes the edge-density detector's value: Canny, a box sum of window Sizes.KernelSize(edge_kernel, 9), the threshold, morphology and the overlay |
| Processor.SaturationMask | app/pipeline/processor.py:222-228 | 255 where the HSV saturation is at most edge_density_th, then one close and one open |
| Processor.SaturationResult | app/pipeline/processor.py:218-230 | None exactly when there is no original image |
| Processor.DispatchResult | app/pipeline/processor.py:94-107 | _dispatch_manual_detect: variance and var_lbp run the variance core, adaptive, edge and saturation their detectors, any other name is an error; its properties are the two lemmas below |
| Processor.DispatchAcceptsDetectMethods | app/pipeline/processor.py:94-107 | accepted iff the name is in DETECT_METHODS; otherwise ValueError("Unknown detection method: "+m); "var_lbp" gives the same result as "variance" |
| Processor.DispatchOverlaysOriginal | app/pipeline/processor.py:94-107 | every detector's output has the original's shape, with each pixel untouched or tinted |
| Processor.DispatchManualDetect | app/pipeline/processor.py:94-107 | the branch chain computes the dispatch specification |
| Processor.Detect | app/pipeline/processor.py:50-60 | returns None without a gray image; in custom mode writes "Manual: "+method and dispatches; otherwise writes "Auto: variance-core" and runs the variance core; nothing else of the record changes |
| Processor.PreprocessResult | app/pipeline/processor.py:26-47 | what preprocess computes from a loaded image: scale, choose the method, convert, optionally equalise, and classify the texture; its properties are the two lemmas below |
| Processor.PreprocessErrors | app/pipeline/processor.py:22-47 | fails exactly on an empty image (ZeroDivisionError), an image too thin to scale (cv2.error) or a custom unknown gray method (ValueError) |
| Processor.PreprocessFits | app/pipeline/processor.py:22-47 | a successful result fits in the original and in 1024 x 1024, and its texture is one of the three levels |
| Processor.PreprocessImage | app/pipeline/processor.py:26-47 | the step-by-step method computes the preprocessing specification |
| Processor.Preprocess | app/pipeline/processor.py:22-47 | None without an original; on success info becomes ""; an exception leaves info as it was; nothing else changes |
| Selection.AfterRemove | app/state.py:39-46 | -1 iff nothing remains; keeps the invariant; otherwise active-1, but never below 0 |
| Selection.Without | app/state.py:42 | list.pop(index): one shorter, entries before index kept, later ones shifted down |
| Selection.RemoveBeforeKeepsActive | app/state.py:39-46 | removing an image in front of the active one keeps the same image active |
| Selection.RemoveAfterMovesActive | app/state.py:39-46 | removing an image behind the active one still moves the selection to the previous image |
| Selection.RemoveFirstSelectsNext | app/state.py:39-46 | removing the active first image selects the image that was second |
| AppStore.ImageState.constructor | app/state.py:7-19 | every field not given takes its dataclass default |
| AppStore.AppState.constructor | app/state.py:21-25 | no images, active index -1, no listeners |
| AppStore.AppState.AddListener | app/state.py:27-28 | the callback is appended; nothing else changes |
| AppStore.AppState.Notify | app/state.py:30-32 | every listener is called once, in registration order, and the notify count grows by one |
| AppStore.AppState.AddImage | app/state.py:34-37 | the image is appended and becomes active; listeners are notified |
| AppStore.AppState.RemoveImage | app/state.py:39-46 | an index out of range changes nothing and notifies no one; otherwise the entry is removed, the selection moves back, and listeners are notified |
| AppStore.AppState.ClearImages | app/state.py:48-51 | empties the list, sets the active index to -1, notifies |
| AppStore.AppState.SetActive | app/state.py:53-56 | a valid index becomes active and notifies; any other is ignored silently |
| AppStore.AppState.Active | app/state.py:58-61 | None iff the list is empty, else the image at the active index |
| GuiStore.ImageState.constructor | gui/state.py:5-15 | the results are None and the parameter dictionaries empty |
| GuiStore.AppState.constructor | gui/state.py:17-20 | no images, active index -1 |
| GuiStore.AppState.AddImage | gui/state.py:22-24 | the image is appended and becomes active |
| GuiStore.AppState.RemoveImage | gui/state.py:26-32 | an index out of range changes nothing; otherwise the entry is removed and the selection moves back |
| GuiStore.AppState.SetActive | gui/state.py:34-36 | a valid index becomes active; any other is ignored |
| GuiStore.AppState.Active | gui/state.py:38-41 | None iff the list is empty, else the image at the active index |
| Validation.Binarised | validation.py:13-14 | a pixel is selected iff its value is > 0 |
| Validation.Iou | validation.py:11-30 | the score lies in [0, 1], and is 1.0 when the union is empty |
| Validation.IntersectionWithinUnion | validation.py:17-20 | the intersection never exceeds the union |
| Validation.EmptyUnion | validation.py:22-28 | an empty union means both masks are empty and the intersection too, so the `return 0.0` branch is unreachable |
| Validation.IouOneIffAgree | validation.py:11-30 | the score is 1.0 iff both masks select the same pixels |
| Validation.IouSymmetric | validation.py:11-30 | iou(p, g) == iou(g, p) |
| Validation.IouSelf | validation.py:11-30 | iou(m, m) == 1.0 for every mask |
| Validation.IouEmptyTruth | validation.py:22-30 | an empty ground truth against a prediction that selects a pixel scores 0.0, through the division |
| Validation.CountImplies | validation.py:17-20 | a selection within another counts no more pixels |
| Validation.CountStrict | validation.py:17-20 | and strictly fewer when the other selects an extra pixel |
| Validation.Overlay | validation.py:44-51 | pixels with mask > 0 take the blend with the colour layer; every other pixel equals the image |
| Validation.OverlayOfEmptyMask | validation.py:44-51 | an all-zero mask returns the image unchanged |
| Validation.OverlayMask | validation.py:44-51 | the copy plus the in-place masked assignment computes Validation.Overlay |
| Legacy.BrightnessOf | Processor.py:56-60 | dark iff mean < 85, medium iff 85 <= mean < 170, light otherwise (a NaN mean included) |
| Legacy.BrightnessMonotone | Processor.py:56-60 | a brighter mean never gives a darker class |
| Legacy.CentreWindow | Processor.py:48-52 | the centre window has 2*(h//6) x 2*(w//6) pixels and lies inside the image, so the slice is never clipped |
| Legacy.DetectBackgroundBrightness | Processor.py:42-60 | the class of the mean V channel over the whole image or over its centre window |
| Legacy.SmallCentreIsLight | Processor.py:48-60 | with centre sampling, an image with fewer than 6 rows or columns averages an empty window and is classed light |
| Legacy.UniformBrightness | Processor.py:42-60 | on an image of one brightness, both sampling modes give the class of that value |
| Legacy.MeanOfConstant | Processor.py:54 | np.mean of a non-empty constant region is that constant |
| Legacy.SettingsFor | Processor.py:10-17 | light -> ("average", 11, 8), medium -> ("max", 11, 8), anything else -> ("", 0, 0) |
| Legacy.SettingsConvert | Processor.py:10-19 | the light and medium methods convert; the dark setting "" raises ValueError("Unknown method: ") |
| Legacy.LoadImgs | Processor.py:25-40 | an unreadable file is FileNotFoundError(path); otherwise the application's scaling applies, and a loaded image fits in 1024 x 1024 |
| Legacy.TextureMask | Processor.py:81-100 | a mask exists exactly for a medium background, with the gray image's shape |
| Legacy.MoldStages | Processor.py:94-96 | two openings and then one closing keep the mask's shape |
| Legacy.TextureThreshold | Processor.py:91 | the threshold is the 80th percentile of the normalised variance map |
| Legacy.TextureCandidates | Processor.py:91-92 | before morphology the mask holds 0 and 255, and 255 exactly above the 80th percentile |
| Legacy.ExecuteOnOutcome | Processor.py:8-22 | after loading, a dark background raises ValueError; otherwise a mask exists exactly for medium |
| Legacy.ExecuteOn | Processor.py:8-22 | execute after loading: classify the background, convert with the class's method, build the texture mask; outcomes stated by Legacy.ExecuteOnOutcome |
| Legacy.Execute | Processor.py:5-23 | execute(path): load_imgs, then the steps after loading; outcomes stated by Legacy.ExecuteOutcome |
| Legacy.ExecuteOutcome | Processor.py:5-23 | unreadable -> FileNotFoundError, no pixels -> ZeroDivisionError, too thin to scale -> cv2.error, dark -> ValueError, otherwise a mask exactly for medium |
| Loader.RFind | gui/utils/image_loader.py:7 | the last occurrence of a character, or -1 when it does not occur |
| Loader.Extension | gui/utils/image_loader.py:7 | the extension is "" or a suffix of the path that starts with '.' and holds no other '.' and no '/' |
| Loader.Lower | gui/utils/image_loader.py:7 | ASCII lower-casing, character by character |
| Loader.LowerIdempotent | gui/utils/image_loader.py:7 | lower-casing twice is lower-casing once |
| Loader.Ext | gui/utils/image_loader.py:7 | the tested extension: the splitext extension, lower-cased |
| Loader.LoadImage | gui/utils/image_loader.py:6-15 | an unsupported extension is ValueError("Unsupported image format: "+ext); otherwise the read image, or ValueError("Failed to load image: "+path) |
| Loader.RejectionReadsNothing | gui/utils/image_loader.py:8-9 | a rejected extension gives the same result whatever the reader does, so nothing is read |
| Loader.ExtensionOfName | gui/utils/image_loader.py:7 | a name with a non-dot before its last dot has that suffix as extension |
| Loader.NoDotNoExtension | gui/utils/image_loader.py:7 | a final component without a dot has no extension, even when a directory has one |
| Loader.LeadingDotNoExtension | gui/utils/image_loader.py:7 | a leading dot does not start an extension |
| Loader.UpperCaseAccepted | gui/utils/image_loader.py:4-8 | "X.PNG" has the extension ".png", which is accepted |
| Loader.LastSuffixCounts | gui/utils/image_loader.py:7-9 | "a.png.bak" has the extension ".bak", which is rejected |
| Loader.NoDotRejected | gui/utils/image_loader.py:7-9 | "noext" has no extension and is rejected |
| Loader.HiddenFileRejected | gui/utils/image_loader.py:7-9 | ".png" has no extension and is rejected |
| Loader.DirectoryDotRejected | gui/utils/image_loader.py:7-9 | "photos.v2/scan" has no extension and is rejected |

## Left out

- **User interface.** The tkinter panels and applications, the plotting functions, and
  `show_variance_histogram` are UI and display code with no decision logic.
- **GUI adapter.** gui/pipeline/adapter.py is not part of this model. It is a thin wrapper
  that stores the results of injected callables.
- **File I/O.** `cv2.imread` is a `Reader` parameter, or is left out where no
  decision depends on it. From validation.py this leaves out `load_mask`,
  `evaluate_dataset`, `visualize_triplet` and `main`.
- **Foreign kernels.** The kernels of OpenCV, numpy and scikit-image are typed parameters:
  cvtColor, CLAHE, boxFilter and blur, normalize, median, percentile, the LBP codes, the
  structuring element, morphologyEx, adaptiveThreshold, Canny, resize and addWeighted.
  Their numerics are not modelled.
- **Floating point.** The variance maps, the z-score arithmetic and the IoU quotient use
  exact reals. The scale factor is the exact integer `side * 1024 / max(h, w)`, so a
  float product that rounds just below an integer is not modelled.
- Convert.LuminosityPixel: uses the exact weighted sum. The source sums in float64, and
  the sum can fall just below an integer before `astype(uint8)` truncates it. For
  (5, 5, 5) the float sum is 4.999999999999999, so the source gives 4 where the model
  gives 5.
- **Pixel values as integers.** The model does not limit them to uint8. The one wrap-around
  the code relies on, the uint8 sum in "average", is written out.
- Processor.ApplyMask: takes a colour image only. The `GRAY2BGR` branch for a
  2-D image is left out, because every caller passes the colour original.
- Loader.Lower: lower-cases ASCII letters only. Python's `str.lower` also maps non-ASCII
  letters.
- Loader.Extension: models `os.path.splitext` on POSIX, where only `/` separates path
  components. On Windows `os.path` also splits at `\` and at a drive prefix, so
  `C:\scans\.png` has no extension there. The model finds ".png" for that path.
- Legacy.TextureMask: returns the mask that `detect_mold_texture` builds. The source
  returns None, because its `return mask` is commented out (see above).
- **Unmodelled parameter fields.** `DetectParams.scales` is an Option of a list. A
  tuple behaves the same in the code, and other types are not modelled.
- **GUI parameter dictionaries.** `preprocess_params` and `detect_params` of
  gui/state.py are modelled as maps from strings to strings.
