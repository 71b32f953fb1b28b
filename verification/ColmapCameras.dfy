/** What the parameter vector of each native camera model means: focal lengths and principal
    point first, and the distortion coefficients after them. */
module ColmapCameras {
  import opened Wrappers
  import opened LittleEndian
  import opened Binary64
  import opened ColmapFormat
  import opened ColmapModel

  /** SIMPLE_PINHOLE, SIMPLE_RADIAL, RADIAL and their two fisheye forms: one focal length. */
  predicate OneFocal(id: int) {
    id == 0 || id == 2 || id == 3 || id == 8 || id == 9
  }

  /** FULL_OPENCV and THIN_PRISM_FISHEYE: the canonical camera has no place for their
      coefficients. */
  predicate CoefficientsDropped(id: int) {
    id == 6 || id == 10
  }

  predicate Pinhole(id: int) {
    id == 0 || id == 1
  }

  lemma ModelTable(id: i32)
    ensures ModelInfo(id).Some? <==> 0 <= id <= 10
    ensures 0 <= id <= 10 ==>
              var info := ModelInfo(id).value;
              && (info.singleFocal <==> OneFocal(id))
              && info.numParams == if id == 0 then 3 else if id == 1 || id == 2 || id == 8 then 4
                                   else if id == 3 || id == 7 || id == 9 then 5
                                   else if id == 4 || id == 5 then 8 else 12
  {
  }

  lemma ParsedModel(s: seq<byte>)
    requires ParseCamera(s).Got?
    ensures var c := ParseCamera(s).value;
            && ModelInfo(c.modelId).Some?
            && var info := ModelInfo(c.modelId).value;
               |c.rawParams| == info.numParams && c.intrinsics == IntrinsicsOf(info, c.rawParams)
               && c.intrinsicModel == info.intrinsicModel && c.model == info.name
  {
  }

  /** Every camera the parser accepts has one of eleven models and the number of parameters of
      its model. The first is the focal length, or the first two are; then comes the principal
      point. The rest are the coefficients of the canonical camera, except for two models
      whose coefficients it does not get. */
  lemma ParameterMeaning(s: seq<byte>)
    requires ParseCamera(s).Got?
    ensures var c := ParseCamera(s).value;
            var p, k, id := c.rawParams, c.intrinsics, c.modelId;
            && 0 <= id <= 10 && |p| >= 3 && (!OneFocal(id) ==> |p| >= 4)
            && k.fx == p[0] && k.fy == (if OneFocal(id) then p[0] else p[1])
            && k.cx == (if OneFocal(id) then p[1] else p[2]) && k.cy == (if OneFocal(id) then p[2] else p[3])
            && ToReconCamera(c).intrinsics == k
            && ToReconCamera(c).distortion == (if CoefficientsDropped(id) then []
                                               else if OneFocal(id) then p[3..] else p[4..])
  {
    var c := ParseCamera(s).value;
    ParsedModel(s);
    ModelTable(c.modelId);
    DistortionTail(c.modelId, c.rawParams);
  }

  lemma DistortionTail(id: i32, p: seq<Double>)
    requires 0 <= id <= 10 && |p| == ModelInfo(id).value.numParams
    ensures |p| >= 3 && (!OneFocal(id) ==> |p| >= 4)
    ensures ExtractDistortion(id, p) == if CoefficientsDropped(id) then [] else if OneFocal(id) then p[3..] else p[4..]
  {
    ModelTable(id);
  }

  /** Only pinhole cameras come without distortion; the model names of the canonical camera
      agree with what the native model is called. */
  lemma ModelNames(s: seq<byte>)
    requires ParseCamera(s).Got?
    ensures var c := ParseCamera(s).value;
            var r := ToReconCamera(c);
            && (r.distortionModel == "none" <==> c.model == "SIMPLE_PINHOLE" || c.model == "PINHOLE")
            && (r.distortionModel == "none" <==> r.intrinsicModel == "pinhole")
            && (r.distortionModel == "opencv_radial" <==> r.intrinsicModel == "opencv")
            && (r.distortionModel == "opencv_fisheye" <==> r.intrinsicModel == "opencv_fisheye")
            && (r.distortionModel == "none" ==> r.distortion == [])
  {
    var c := ParseCamera(s).value;
    ParsedModel(s);
    ModelTable(c.modelId);
    NamesOf(c.modelId);
    DistortionTail(c.modelId, c.rawParams);
  }

  lemma NamesOf(id: i32)
    requires 0 <= id <= 10
    ensures var info := ModelInfo(id).value;
            && (DistortionModelForId(id) == "none" <==> Pinhole(id))
            && (info.name == "SIMPLE_PINHOLE" || info.name == "PINHOLE" <==> Pinhole(id))
            && (info.intrinsicModel == "pinhole" <==> Pinhole(id))
            && (DistortionModelForId(id) == "opencv_radial" <==> info.intrinsicModel == "opencv")
            && (DistortionModelForId(id) == "opencv_fisheye" <==> info.intrinsicModel == "opencv_fisheye")
  {
  }
}
