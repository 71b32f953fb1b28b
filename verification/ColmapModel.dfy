/** The canonical reconstruction, what the native writer accepts, and what it writes
    (adapters/colmap/colmap_model_writer.cpp, core/reconstruction/reconstruction.h). */
module ColmapModel {
  import opened Wrappers
  import opened Collections
  import opened LittleEndian
  import opened Binary64
  import opened ColmapFormat

  datatype ReconCamera = ReconCamera(cameraId: u32, width: i64, height: i64, intrinsicModel: string,
                                     intrinsics: Intrinsics, distortionModel: string,
                                     distortion: seq<Double>, calibrationRef: string)

  datatype ReconImage = ReconImage(imageId: u32, cameraId: u32, frameId: string, name: seq<byte>,
                                   pose: DPose, detected: bool)

  datatype TrackElement = TrackElement(imageId: u32, point2dIdx: i32)

  datatype ReconPoint = ReconPoint(point3dId: u64, xyz: DVec, color: Color, error: Double, track: seq<TrackElement>)

  datatype Reconstruction = Reconstruction(cameras: seq<ReconCamera>, images: seq<ReconImage>, points: seq<ReconPoint>)

  datatype Keypoint = Keypoint(x: Double, y: Double)

  type Keypoints = map<u32, seq<Keypoint>>

  datatype WriterError =
    | NoCameras | NoImages | DuplicateCameraId | DuplicateImageId | DuplicatePointId
    | EmptyImageName | DuplicateImageName | NegativeDimension
    | NonFiniteCoefficient | UnexpectedCoefficients | WrongCoefficientCount | UnsupportedCamera
    | MissingKeypoints | EmptyKeypoints | NaNKeypoint
    | UnknownTrackImage | TrackIndexOutOfRange | DuplicateTrackElement
    | NonFiniteDouble

  // --------------------------------------------------------------------- camera records

  datatype RowCamera = RowCamera(modelId: i32, params: seq<Double>)

  /** A canonical camera as a native record, or the reason it has none. */
  function CameraRecord(c: ReconCamera): Result<RowCamera, WriterError> {
    var k, d := c.intrinsics, c.distortion;
    if exists i :: 0 <= i < |d| && !IsFinite(d[i]) then Err(NonFiniteCoefficient)
    else if c.intrinsicModel == "pinhole" && c.distortionModel == "none" then
      if d != [] then Err(UnexpectedCoefficients) else Ok(RowCamera(1, [k.fx, k.fy, k.cx, k.cy]))
    else if c.intrinsicModel == "opencv" && c.distortionModel == "opencv_radial" then
      if |d| != 4 then Err(WrongCoefficientCount) else Ok(RowCamera(4, [k.fx, k.fy, k.cx, k.cy] + d))
    else if c.intrinsicModel == "opencv_fisheye" && c.distortionModel == "opencv_fisheye" then
      if |d| != 4 then Err(WrongCoefficientCount) else Ok(RowCamera(5, [k.fx, k.fy, k.cx, k.cy] + d))
    else Err(UnsupportedCamera)
  }

  // ---------------------------------------------------------------- what is acceptable

  function CameraId(c: ReconCamera): int { c.cameraId }

  function ImageId(i: ReconImage): int { i.imageId }

  function PointId(p: ReconPoint): int { p.point3dId }

  ghost predicate CameraFine(c: ReconCamera) {
    c.width >= 0 && c.height >= 0 && CameraRecord(c).Ok?
  }

  ghost predicate ImageFine(i: ReconImage, kps: Keypoints) {
    && i.name != []
    && i.imageId in kps && kps[i.imageId] != []
    && forall k :: k in kps[i.imageId] ==> !IsNaN(k.x) && !IsNaN(k.y)
  }

  ghost predicate HasImage(images: seq<ReconImage>, id: u32) {
    exists i :: i in images && i.imageId == id
  }

  ghost predicate TrackFine(te: TrackElement, images: seq<ReconImage>, kps: Keypoints) {
    && HasImage(images, te.imageId) && te.imageId in kps
    && 0 <= te.point2dIdx < |kps[te.imageId]|
  }

  ghost predicate DistinctNames(images: seq<ReconImage>) {
    forall i, j :: 0 <= i < j < |images| ==> images[i].name != images[j].name
  }

  /** No 2D observation is claimed twice, by one track or by two. */
  ghost predicate DisjointTracks(points: seq<ReconPoint>) {
    forall p, i, q, j ::
      (&& 0 <= p < |points| && 0 <= i < |points[p].track|
       && 0 <= q < |points| && 0 <= j < |points[q].track|
       && points[p].track[i] == points[q].track[j]) ==> p == q && i == j
  }

  /** The checks the writer makes before it opens a file. */
  ghost predicate Accepts(rec: Reconstruction, kps: Keypoints) {
    && rec.cameras != [] && rec.images != []
    && DistinctBy(rec.cameras, CameraId) && DistinctBy(rec.images, ImageId) && DistinctBy(rec.points, PointId)
    && DistinctNames(rec.images)
    && (forall c :: c in rec.cameras ==> CameraFine(c))
    && (forall i :: i in rec.images ==> ImageFine(i, kps))
    && (forall p, te :: p in rec.points && te in p.track ==> TrackFine(te, rec.images, kps))
    && DisjointTracks(rec.points)
  }

  // -------------------------------------------------------------- the fields of records

  /** The conversion of a container size to the 64-bit count that is written. */
  function Count64(n: nat): u64 {
    n % 0x1_0000_0000_0000_0000
  }

  function Count32(n: nat): u32 {
    n % 0x1_0000_0000
  }

  function CameraFields(c: ReconCamera, row: RowCamera): seq<Field> {
    [FU32(c.cameraId), FU32(Unsigned32(row.modelId)), FU64(Unsigned64(c.width)), FU64(Unsigned64(c.height))]
    + DoubleFields(row.params)
  }

  /** The point observed at a keypoint, or the pattern of -1 when there is none. */
  function ObservedPoint(points: seq<ReconPoint>, imageId: u32, idx: nat): u64 {
    if points == [] then Unsigned64(-1)
    else if exists i :: 0 <= i < |points[0].track| && points[0].track[i].imageId == imageId
                        && points[0].track[i].point2dIdx == idx then points[0].point3dId
    else ObservedPoint(points[1..], imageId, idx)
  }

  /** The point2D records of the first n keypoints of an image. */
  function KeypointFields(points: seq<ReconPoint>, imageId: u32, ks: seq<Keypoint>, n: nat): seq<Field>
    requires n <= |ks|
  {
    if n == 0 then []
    else KeypointFields(points, imageId, ks, n - 1)
         + [FDouble(ks[n - 1].x), FDouble(ks[n - 1].y), FU64(ObservedPoint(points, imageId, Count32(n - 1)))]
  }

  function ImageFields(fp: Rounding, points: seq<ReconPoint>, i: ReconImage, ks: seq<Keypoint>): seq<Field> {
    PosedFields(ConvertPose(fp, i.pose), points, i, ks)
  }

  /** An image's fields with the pose already in COLMAP's form. */
  function PosedFields(n: DPose, points: seq<ReconPoint>, i: ReconImage, ks: seq<Keypoint>): seq<Field> {
    [FU32(i.imageId)]
    + DoubleFields([n.rotation.w, n.rotation.x, n.rotation.y, n.rotation.z])
    + DoubleFields([n.translation.x, n.translation.y, n.translation.z])
    + [FU32(i.cameraId), FU32(Count32(|i.name|)), FText(i.name), FU64(Count64(|ks|))]
    + KeypointFields(points, i.imageId, ks, |ks|)
  }

  /** The fields of the first n records of a list, in order. */
  function Records<T>(xs: seq<T>, fields: T -> seq<Field>, n: nat): seq<Field>
    requires n <= |xs|
  {
    if n == 0 then [] else Records(xs, fields, n - 1) + fields(xs[n - 1])
  }

  function TrackElementFields(te: TrackElement): seq<Field> {
    [FU32(te.imageId), FU32(Unsigned32(te.point2dIdx))]
  }

  function PointFields(p: ReconPoint): seq<Field> {
    [FU64(p.point3dId)] + DoubleFields([p.xyz.x, p.xyz.y, p.xyz.z])
    + [FByte(p.color.r), FByte(p.color.g), FByte(p.color.b), FDouble(p.error)]
    + [FU64(Count64(|p.track|))]
    + Records(p.track, TrackElementFields, |p.track|)
  }

  // ------------------------------------------------------------------- the three files

  function FileFields<T>(xs: seq<T>, fields: T -> seq<Field>): seq<Field> {
    [FU64(Count64(|xs|))] + Records(xs, fields, |xs|)
  }

  function CameraRowFields(c: ReconCamera): seq<Field> {
    match CameraRecord(c)
    case Ok(row) => CameraFields(c, row)
    case Err(_) => []
  }

  function ImageRowFields(fp: Rounding, points: seq<ReconPoint>, kps: Keypoints): ReconImage -> seq<Field> {
    (i: ReconImage) => ImageFields(fp, points, i, if i.imageId in kps then kps[i.imageId] else [])
  }

  function CamerasFile(rec: Reconstruction): seq<Field> {
    FileFields(SortBy(rec.cameras, CameraId), CameraRowFields)
  }

  function ImagesFile(fp: Rounding, rec: Reconstruction, kps: Keypoints): seq<Field> {
    FileFields(SortBy(rec.images, ImageId), ImageRowFields(fp, rec.points, kps))
  }

  function PointsFile(rec: Reconstruction): seq<Field> {
    FileFields(SortBy(rec.points, PointId), PointFields)
  }

  /** No double on its way into any of the three files is infinite or NaN. */
  ghost predicate AllFinite(fp: Rounding, rec: Reconstruction, kps: Keypoints) {
    AllWritable(CamerasFile(rec)) && AllWritable(ImagesFile(fp, rec, kps)) && AllWritable(PointsFile(rec))
  }

  // ------------------------------------------------------------ back to the canonical form

  function ToReconCamera(c: SparseCamera): ReconCamera {
    ReconCamera(c.cameraId, c.width, c.height, c.intrinsicModel, c.intrinsics,
                DistortionModelForId(c.modelId), ExtractDistortion(c.modelId, c.rawParams), "")
  }

  function FrameIdFor(frames: map<seq<byte>, string>, name: seq<byte>): string {
    if name in frames then frames[name] else ""
  }

  function ToReconImage(fp: Rounding, frames: map<seq<byte>, string>, i: SparseImage): ReconImage {
    ReconImage(i.imageId, i.cameraId, FrameIdFor(frames, i.name), i.name, ConvertPose(fp, i.pose), true)
  }

  function ToTrackElement(t: SparseTrack): TrackElement {
    TrackElement(t.imageId, Signed32(t.point2dIdx))
  }

  function ToReconPoint(p: SparsePoint): ReconPoint {
    ReconPoint(p.point3dId, p.xyz, p.rgb, p.error,
               seq(|p.track|, i requires 0 <= i < |p.track| => ToTrackElement(p.track[i])))
  }

  function ToReconCameras(cs: seq<SparseCamera>): seq<ReconCamera> {
    seq(|cs|, i requires 0 <= i < |cs| => ToReconCamera(cs[i]))
  }

  function ToReconImages(fp: Rounding, frames: map<seq<byte>, string>, ims: seq<SparseImage>): seq<ReconImage> {
    seq(|ims|, i requires 0 <= i < |ims| => ToReconImage(fp, frames, ims[i]))
  }

  function ToReconPoints(ps: seq<SparsePoint>): seq<ReconPoint> {
    seq(|ps|, i requires 0 <= i < |ps| => ToReconPoint(ps[i]))
  }

  /** SparseModelToReconstruction, on the lists the native model carries. */
  function ToReconstruction(fp: Rounding, frames: map<seq<byte>, string>, m: SparseModel): Reconstruction {
    Reconstruction(ToReconCameras(m.cameras), ToReconImages(fp, frames, m.images), ToReconPoints(m.points))
  }

  // ------------------------------------------------------- what a round trip preserves

  function StripCamera(c: ReconCamera): ReconCamera {
    c.(calibrationRef := "")
  }

  function StripImage(frames: map<seq<byte>, string>, i: ReconImage): ReconImage {
    i.(frameId := FrameIdFor(frames, i.name), detected := true)
  }

  function StripCameras(cs: seq<ReconCamera>): seq<ReconCamera> {
    seq(|cs|, i requires 0 <= i < |cs| => StripCamera(cs[i]))
  }

  function StripImages(frames: map<seq<byte>, string>, ims: seq<ReconImage>): seq<ReconImage> {
    seq(|ims|, i requires 0 <= i < |ims| => StripImage(frames, ims[i]))
  }

  /** The reconstruction with each list sorted by id, and the three attributes the native
      model does not carry reset: calibration references, frame ids, detection flags. */
  function Canonical(frames: map<seq<byte>, string>, rec: Reconstruction): Reconstruction {
    Reconstruction(StripCameras(SortBy(rec.cameras, CameraId)), StripImages(frames, SortBy(rec.images, ImageId)),
                   SortBy(rec.points, PointId))
  }
}
