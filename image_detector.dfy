/** The legacy `ImageAIDetector` outside the pixel work: the file-size bucket
    behind the metadata score, the "basic" path that clamps it, the confidence
    bucket on the image dimensions, the clamps that close the artifact and
    texture scorers, the fixed-weight combination of the "advanced_cv" path,
    and the dispatch between the two paths.

    What OpenCV and NumPy compute from the pixels (the decoded array, the FFT
    magnitudes, the colour-space deviations, the Canny edge density, the local
    variance) enters as abstract statistics; `None` stands for a library call
    that raised or, for `imdecode`, returned no image. */
module ImageDetector {
  import opened Scores

  newtype byte = x: int | 0 <= x < 256

  // ---------------------------------------------------------------------------
  // Metadata

  /** `_analyze_metadata`: a step function of the file size, from 0.3 for a
      file under 10000 bytes to 0.8 for one of a million bytes or more. */
  function AnalyzeMetadata(imageData: seq<byte>): (r: real)
    ensures 0.3 <= r <= 0.8
    ensures r == 0.3 <==> |imageData| < 10000
    ensures r == 0.8 <==> |imageData| >= 1000000
  {
    var size := |imageData|;
    if size < 10000 then 0.3
    else if size < 50000 then 0.5
    else if size < 200000 then 0.6
    else if size < 1000000 then 0.7
    else 0.8
  }

  /** The size thresholds and the score each band receives. */
  const SizeThresholds: seq<nat> := [10000, 50000, 200000, 1000000]
  const SizeScores: seq<real> := [0.3, 0.5, 0.6, 0.7, 0.8]

  /** The metadata score is the score of the band the size falls in: the
      if-chain and the table of thresholds agree on every size. */
  lemma MetadataByBand(imageData: seq<byte>)
    ensures AnalyzeMetadata(imageData) == SizeScores[Crossed(|imageData|, SizeThresholds)]
  {
    var n := |imageData|;
    var t1, t2, t3: seq<nat> := [50000, 200000, 1000000], [200000, 1000000], [1000000];
    assert SizeThresholds[1..] == t1 && t1[1..] == t2 && t2[1..] == t3 && t3[1..] == [];
    assert Crossed(n, t3) == if n >= 1000000 then 1 else 0;
    assert Crossed(n, t2) == (if n >= 200000 then 1 else 0) + Crossed(n, t3);
    assert Crossed(n, t1) == (if n >= 50000 then 1 else 0) + Crossed(n, t2);
    assert Crossed(n, SizeThresholds) == (if n >= 10000 then 1 else 0) + Crossed(n, t1);
  }

  /** A larger file never scores lower. */
  lemma MetadataMonotone(a: seq<byte>, b: seq<byte>)
    requires |a| <= |b|
    ensures AnalyzeMetadata(a) <= AnalyzeMetadata(b)
  {
    MetadataByBand(a);
    MetadataByBand(b);
    CrossedMonotone(|a|, |b|, SizeThresholds);
  }

  // ---------------------------------------------------------------------------
  // Analysis records

  datatype ImageAnalysis =
    | Basic(fileSize: nat, metadataScore: real)
    | Advanced(frequencyAnalysis: real, artifactDetection: real, metadataAnalysis: real,
               textureAnalysis: real, imageWidth: nat, imageHeight: nat, channels: nat)
  {
    /** The `"method"` entry of the analysis dictionary. */
    function MethodName(): (name: string)
      ensures name == "basic" <==> Basic?
      ensures name == "advanced_cv" <==> Advanced?
    {
      match this
      case Basic(_, _) => "basic"
      case Advanced(_, _, _, _, _, _, _) => "advanced_cv"
    }
  }

  // ---------------------------------------------------------------------------
  // Basic path

  /** `_basic_detection`: the metadata score clamped to [0.2, 0.8], which it
      already lies in, with a fixed confidence of 0.5. */
  function BasicDetection(imageData: seq<byte>): (d: Detection<ImageAnalysis>)
    ensures d.aiProbability == AnalyzeMetadata(imageData)
    ensures 0.3 <= d.aiProbability <= 0.8
    ensures d.confidence == 0.5
    ensures d.analysis == Basic(|imageData|, AnalyzeMetadata(imageData))
    ensures d.analysis.MethodName() == "basic"
  {
    var size := |imageData|;
    var metadataScore := AnalyzeMetadata(imageData);
    var aiProbability := Min(0.8, Max(0.2, metadataScore));
    Detection(aiProbability, 0.5, Basic(size, metadataScore))
  }

  // ---------------------------------------------------------------------------
  // Confidence

  /** The shape of a decoded image: rows, columns and, for a colour image,
      the channel count (`None` for a two-dimensional array). */
  datatype Image = Image(height: nat, width: nat, depth: Option<nat>)
  {
    /** `img.shape[2] if len(img.shape) > 2 else 1`. */
    function Channels(): (c: nat)
      ensures depth.None? ==> c == 1
      ensures depth.Some? ==> c == depth.value
    {
      match depth
      case Some(c) => c
      case None => 1
    }

    /** `img.size`: the number of entries of the array, zero exactly when
        some dimension is zero. */
    function Size(): (n: nat)
      ensures n == 0 <==> height == 0 || width == 0 || Channels() == 0
    {
      height * width * Channels()
    }
  }

  /** `_calculate_confidence`: 0.3 without an image or for an empty one,
      otherwise a step function of the dimensions. The sub-scores it is handed
      are never read, so they are not a parameter here. */
  function CalculateConfidence(img: Option<Image>): (r: real)
    ensures 0.3 <= r <= 0.9
    ensures r == 0.3 <==> img.None? || img.value.Size() == 0
    ensures img.Some? && img.value.Size() > 0 ==> r == SideConfidence(MinSide(img.value))
  {
    if img.None? || img.value.Size() == 0 then 0.3
    else
      var height := img.value.height;
      var width := img.value.width;
      if height < 64 || width < 64 then 0.4
      else if height < 256 || width < 256 then 0.6
      else if height < 1024 || width < 1024 then 0.8
      else 0.9
  }

  function MinSide(img: Image): nat
  {
    if img.height <= img.width then img.height else img.width
  }

  /** The confidence a non-empty image earns by its shorter side. */
  function SideConfidence(side: nat): real
  {
    if side < 64 then 0.4
    else if side < 256 then 0.6
    else if side < 1024 then 0.8
    else 0.9
  }

  /** A non-empty image with a longer short side never earns less confidence. */
  lemma ConfidenceMonotone(a: Image, b: Image)
    requires a.Size() > 0 && b.Size() > 0
    requires MinSide(a) <= MinSide(b)
    ensures CalculateConfidence(Some(a)) <= CalculateConfidence(Some(b))
  {
  }

  /** A non-empty image always earns more than the 0.3 of a missing one. */
  lemma NonEmptyImageConfidence(img: Image)
    requires img.Size() > 0
    ensures 0.4 <= CalculateConfidence(Some(img)) <= 0.9
  {
  }

  // ---------------------------------------------------------------------------
  // Sub-scores on library statistics

  /** Means of `log(|F| + 1)` over the central half and the central quarter of
      the shifted spectrum. */
  datatype SpectrumStats = SpectrumStats(highMean: NonNeg, lowMean: NonNeg)

  /** `_frequency_domain_analysis`: the ratio of the two means (guarded by
      1e-8) over 10, capped at 1; 0.5 when the library raised. */
  function FrequencyDomainAnalysis(spectrum: Option<SpectrumStats>): (r: real)
    ensures InUnit(r)
    ensures spectrum.None? ==> r == 0.5
    ensures spectrum.Some? ==> (r == 0.0 <==> spectrum.value.highMean == 0.0)
  {
    match spectrum
    case None => 0.5
    case Some(s) =>
      var divisor := s.lowMean + 0.00000001;
      QuotientNonNeg(s.highMean, divisor);
      var freqRatio := s.highMean / divisor;
      QuotientNonNeg(freqRatio, 10.0);
      Min(1.0, freqRatio / 10.0)
  }

  /** The mean per-channel deviations in HSV and in Lab, and the share of
      Canny edge pixels. */
  datatype ArtifactStats = ArtifactStats(hsvStdMean: NonNeg, labStdMean: NonNeg, edgeDensity: real)

  /** `_detect_ai_artifacts`: 0.6 of the colour uniformity plus 0.4 of the
      edge consistency, clamped to [0, 1]; 0.5 when the library raised. */
  function DetectAiArtifacts(stats: Option<ArtifactStats>): (r: real)
    ensures InUnit(r)
    ensures stats.None? ==> r == 0.5
  {
    match stats
    case None => 0.5
    case Some(s) =>
      var colorUniformity := 1.0 - (s.hsvStdMean + s.labStdMean) / 255.0;
      var edgeConsistency := 1.0 - s.edgeDensity;
      var artifactScore := colorUniformity * 0.6 + edgeConsistency * 0.4;
      Max(0.0, Min(1.0, artifactScore))
  }

  /** More colour spread or more edges never make an image look more
      generated. */
  lemma ArtifactScoreAntitone(s: ArtifactStats, t: ArtifactStats)
    requires s.hsvStdMean + s.labStdMean <= t.hsvStdMean + t.labStdMean
    requires s.edgeDensity <= t.edgeDensity
    ensures DetectAiArtifacts(Some(s)) >= DetectAiArtifacts(Some(t))
  {
  }

  /** A flat image without edges scores 1; one whose deviations reach 255
      and that is all edges scores 0. */
  lemma ArtifactScoreExtremes(s: ArtifactStats)
    ensures s.hsvStdMean == 0.0 && s.labStdMean == 0.0 && s.edgeDensity <= 0.0
            ==> DetectAiArtifacts(Some(s)) == 1.0
    ensures s.hsvStdMean + s.labStdMean >= 255.0 && s.edgeDensity >= 1.0
            ==> DetectAiArtifacts(Some(s)) == 0.0
  {
  }

  /** `_analyze_texture_patterns`: one minus the mean local variance over
      255, clamped to [0, 1]; 0.5 when the library raised. */
  function AnalyzeTexturePatterns(localVarianceMean: Option<NonNeg>): (r: real)
    ensures InUnit(r)
    ensures localVarianceMean.None? ==> r == 0.5
    ensures localVarianceMean.Some? ==> (r == 1.0 <==> localVarianceMean.value == 0.0)
    ensures localVarianceMean.Some? ==> (r == 0.0 <==> localVarianceMean.value >= 255.0)
  {
    match localVarianceMean
    case None => 0.5
    case Some(v) =>
      var textureUniformity := 1.0 - v / 255.0;
      Max(0.0, Min(1.0, textureUniformity))
  }

  /** More local variance never makes the texture look more generated. */
  lemma TextureScoreAntitone(v: NonNeg, w: NonNeg)
    requires v <= w
    ensures AnalyzeTexturePatterns(Some(v)) >= AnalyzeTexturePatterns(Some(w))
  {
  }

  // ---------------------------------------------------------------------------
  // Advanced path and dispatch

  /** The weighted combination of `_advanced_detection`; the weights are
      non-negative and sum to 1. */
  function AdvancedScore(frequency: real, artifact: real, metadata: real, texture: real): (r: real)
    ensures Min4(frequency, artifact, metadata, texture) <= r <= Max4(frequency, artifact, metadata, texture)
  {
    frequency * 0.35 + artifact * 0.25 + metadata * 0.20 + texture * 0.20
  }

  /** The combination lies between the smallest and the largest sub-score, so
      four scores in [0, 1] combine to a score in [0, 1] without a clamp. */
  lemma AdvancedScoreIsConvex(frequency: real, artifact: real, metadata: real, texture: real)
    ensures Min4(frequency, artifact, metadata, texture)
            <= AdvancedScore(frequency, artifact, metadata, texture)
            <= Max4(frequency, artifact, metadata, texture)
    ensures InUnit(frequency) && InUnit(artifact) && InUnit(metadata) && InUnit(texture)
            ==> InUnit(AdvancedScore(frequency, artifact, metadata, texture))
  {
    var lo := Min4(frequency, artifact, metadata, texture);
    var hi := Max4(frequency, artifact, metadata, texture);
    assert lo <= frequency <= hi && lo <= artifact <= hi;
    assert lo <= metadata <= hi && lo <= texture <= hi;
  }

  /** The weights sum to 1: four equal scores combine to that score. */
  lemma AdvancedScoreOfEqualScores(x: real)
    ensures AdvancedScore(x, x, x, x) == x
  {
  }

  /** What the library produces from the bytes once `imdecode` gave an image. */
  datatype Decoded = Decoded(
    image: Image,
    spectrum: Option<SpectrumStats>,
    artifacts: Option<ArtifactStats>,
    localVarianceMean: Option<NonNeg>)

  /** `_advanced_detection`: the basic path when there is no image, otherwise
      the weighted combination of the four sub-scores, the dimension
      confidence and an "advanced_cv" analysis. */
  function AdvancedDetection(imageData: seq<byte>, decoded: Option<Decoded>): (d: Detection<ImageAnalysis>)
    ensures decoded.None? ==> d == BasicDetection(imageData)
    ensures InUnit(d.aiProbability)
    ensures 0.3 <= d.confidence <= 0.9
    ensures decoded.Some? ==> d.analysis.MethodName() == "advanced_cv"
    ensures decoded.Some? ==> d.analysis == Advanced(
      FrequencyDomainAnalysis(decoded.value.spectrum),
      DetectAiArtifacts(decoded.value.artifacts),
      AnalyzeMetadata(imageData),
      AnalyzeTexturePatterns(decoded.value.localVarianceMean),
      decoded.value.image.width, decoded.value.image.height, decoded.value.image.Channels())
    ensures decoded.Some? ==> d.confidence == CalculateConfidence(Some(decoded.value.image))
    ensures decoded.Some? ==> d.aiProbability == AdvancedScore(d.analysis.frequencyAnalysis,
      d.analysis.artifactDetection, d.analysis.metadataAnalysis, d.analysis.textureAnalysis)
  {
    match decoded
    case None => BasicDetection(imageData)
    case Some(dec) =>
      var frequencyScore := FrequencyDomainAnalysis(dec.spectrum);
      var artifactScore := DetectAiArtifacts(dec.artifacts);
      var metadataScore := AnalyzeMetadata(imageData);
      var textureScore := AnalyzeTexturePatterns(dec.localVarianceMean);
      AdvancedScoreIsConvex(frequencyScore, artifactScore, metadataScore, textureScore);
      var aiProbability := AdvancedScore(frequencyScore, artifactScore, metadataScore, textureScore);
      var confidence := CalculateConfidence(Some(dec.image));
      Detection(aiProbability, confidence,
        Advanced(frequencyScore, artifactScore, metadataScore, textureScore,
                 dec.image.width, dec.image.height, dec.image.Channels()))
  }

  /** `detect`: the advanced path when OpenCV imported, the basic path
      otherwise. Either way the probability and the confidence are in range. */
  function Detect(opencvAvailable: bool, imageData: seq<byte>, decoded: Option<Decoded>): (d: Detection<ImageAnalysis>)
    ensures !opencvAvailable ==> d == BasicDetection(imageData)
    ensures opencvAvailable ==> d == AdvancedDetection(imageData, decoded)
    ensures InUnit(d.aiProbability)
    ensures 0.3 <= d.confidence <= 0.9
  {
    if opencvAvailable then AdvancedDetection(imageData, decoded)
    else BasicDetection(imageData)
  }

  /** Without a decodable image the result does not depend on whether OpenCV
      is present. */
  lemma UndecodableImageIsBasic(opencvAvailable: bool, imageData: seq<byte>)
    ensures Detect(opencvAvailable, imageData, None) == BasicDetection(imageData)
    ensures Detect(opencvAvailable, imageData, None).analysis.MethodName() == "basic"
  {
  }

  // ---------------------------------------------------------------------------
  // The availability flag

  /** Loading the module as written: the unguarded `import cv2` on its first
      line raises before the guarded import is reached, so without OpenCV the
      module does not load at all (`None`), and with it the flag is set. The
      flag is therefore never false. */
  function ModuleOpenCvFlag(cv2Importable: bool): (r: Option<bool>)
    ensures r.Some? <==> cv2Importable
    ensures r != Some(false)
  {
    if cv2Importable then Some(true) else None
  }

  /** As written, every loaded detector takes the advanced path: the basic
      branch of `detect` is unreachable. */
  lemma BasicBranchUnreachable(cv2Importable: bool, imageData: seq<byte>, decoded: Option<Decoded>)
    requires ModuleOpenCvFlag(cv2Importable).Some?
    ensures Detect(ModuleOpenCvFlag(cv2Importable).value, imageData, decoded) == AdvancedDetection(imageData, decoded)
  {
  }

  /** Loading the module with only the guarded import: it always loads, and
      the flag says whether OpenCV is present. */
  function GuardedOpenCvFlag(cv2Importable: bool): (r: Option<bool>)
    ensures r.Some? && (r.value <==> cv2Importable)
  {
    Some(cv2Importable)
  }

  /** With the guarded import, a detector without OpenCV loads and falls
      back to the basic path. */
  lemma GuardedImportReachesBasic(imageData: seq<byte>, decoded: Option<Decoded>)
    ensures GuardedOpenCvFlag(false).Some?
    ensures Detect(GuardedOpenCvFlag(false).value, imageData, decoded) == BasicDetection(imageData)
  {
  }
}
