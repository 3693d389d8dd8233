/**
 * The enumerations and default records of app/defs.py. The pipeline dispatches on the
 * strings themselves, so the names stay strings here; the default records are
 * datatypes whose default values are the functions below.
 */
module Defs {
  import opened Wrappers
  import opened Grid

  /** The image file extensions the loader accepts (EXTS). */
  const Exts: seq<string> := [".png", ".jpg", ".jpeg"]

  /** The grayscale conversions the preprocessing step knows (PREPROCESS_METHODS). */
  const PreprocessMethods: seq<string> := ["weighted", "average", "max", "min", "luminosity"]

  /** The detectors a manual run can ask for (DETECT_METHODS). */
  const DetectMethods: seq<string> := ["variance", "adaptive", "edge", "saturation", "var_lbp"]

  /** The threshold policies of the variance detector (TH_MODES). */
  const ThModes: seq<string> := ["percentile", "zscore", "fixed"]

  /** The texture levels the preprocessing step assigns, from least to most textured. */
  const TextureLevels: seq<string> := ["low_txt", "mid_txt", "high_txt"]

  /** The result of preprocessing: the gray image (None before it exists) and its texture level. */
  datatype PreprocessedImage = PreprocessedImage(img: Option<Grid<int>>, texture: string)

  datatype PreprocessParams = PreprocessParams(
    grayMethod: string,
    useClahe: bool,
    claheClip: real,
    claheGrid: int)

  /**
   * The detector settings. `scales` is None or a user list of box sizes; the Python field
   * also admits tuples, which behave like lists.
   */
  datatype DetectParams = DetectParams(
    detector: string,  // the `method` field
    thMode: string,
    fixedTh: int,
    zK: real,
    percentile: real,
    useLbp: bool,
    lbpRad: int,
    lbpPoints: int,
    lbpUniformTh: real,
    minArea: real,
    maxArea: real,
    scales: Option<seq<int>>,
    elemsize: int,
    openIter: int,
    closeIter: int,
    blockSize: int,
    c: int,
    edgeT1: int,
    edgeT2: int,
    edgeKernel: int,
    edgeDensityTh: int)

  function DefaultPreprocessedImage(): (d: PreprocessedImage)
    ensures d.img == None && d.texture == TextureLevels[0]
  {
    PreprocessedImage(None, "low_txt")
  }

  function DefaultPreprocessParams(): (d: PreprocessParams)
    ensures d.grayMethod == PreprocessMethods[0] && !d.useClahe
  {
    PreprocessParams("weighted", false, 2.0, 8)
  }

  function DefaultDetectParams(): (d: DetectParams)
    ensures d.detector == DetectMethods[0] && d.thMode == ThModes[0]
    ensures d.scales == None && !d.useLbp
  {
    DetectParams("variance", "percentile", 120, 3.0, 85.0, false, 2, 16, 0.8, 0.0005, 0.35, None,
                 7, 1, 1, 31, 5, 50, 150, 9, 20)
  }

  /** Membership in EXTS, name by name. */
  lemma ExtsMembers(e: string)
    ensures e in Exts <==> e == ".png" || e == ".jpg" || e == ".jpeg"
  {
  }

  /** Membership in DETECT_METHODS, name by name. */
  lemma DetectMethodsMembers(m: string)
    ensures m in DetectMethods <==> m == "variance" || m == "adaptive" || m == "edge" || m == "saturation" || m == "var_lbp"
  {
  }

  /** The three lists hold distinct names, so membership decides the dispatch unambiguously. */
  lemma EnumerationsDistinct()
    ensures forall i, j :: 0 <= i < j < |PreprocessMethods| ==> PreprocessMethods[i] != PreprocessMethods[j]
    ensures forall i, j :: 0 <= i < j < |DetectMethods| ==> DetectMethods[i] != DetectMethods[j]
    ensures forall i, j :: 0 <= i < j < |ThModes| ==> ThModes[i] != ThModes[j]
  {
  }

  /**
   * The default detector settings are consistent: the area band is non-empty, the edge
   * thresholds are ordered, the percentile lies in the band the threshold policy clamps
   * to, and every kernel size is already odd and at least 3.
   */
  lemma DefaultsConsistent()
    ensures DefaultDetectParams().minArea < DefaultDetectParams().maxArea
    ensures DefaultDetectParams().edgeT1 <= DefaultDetectParams().edgeT2
    ensures 50.0 <= DefaultDetectParams().percentile <= 99.5
    ensures var d := DefaultDetectParams();
      forall k :: k in [d.elemsize, d.blockSize, d.edgeKernel] ==> k >= 3 && k % 2 == 1
  {
  }
}
