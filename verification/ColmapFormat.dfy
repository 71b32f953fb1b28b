/** COLMAP's native sparse-model files: the records, their bytes, and the parser as a
    function on the bytes not yet read (adapters/colmap/colmap_converter.cpp). */
module ColmapFormat {
  import opened Wrappers
  import opened Collections
  import opened LittleEndian
  import opened Binary64

  // -------------------------------------------------------------------------- fields

  /** One write of the binary writer. Doubles are separate because they can be refused. */
  datatype Field =
    | FByte(b: byte)
    | FU32(n: u32)
    | FU64(m: u64)
    | FDouble(d: Double)
    | FText(s: seq<byte>)

  function FieldBytes(f: Field): seq<byte> {
    match f
    case FByte(b) => [b]
    case FU32(n) => Bytes(n, 4)
    case FU64(m) => Bytes(m, 8)
    case FDouble(d) => Bytes(d, 8)
    case FText(s) => s
  }

  function Encode(fs: seq<Field>): seq<byte> {
    if fs == [] then [] else FieldBytes(fs[0]) + Encode(fs[1..])
  }

  predicate Writable(f: Field) {
    f.FDouble? ==> IsFinite(f.d)
  }

  predicate AllWritable(fs: seq<Field>) {
    forall f :: f in fs ==> Writable(f)
  }

  lemma {:induction false} EncodeConcat(a: seq<Field>, b: seq<Field>)
    ensures Encode(a + b) == Encode(a) + Encode(b)
  {
    if a == [] {
      assert a + b == b;
    } else {
      EncodeConcat(a[1..], b);
      assert (a + b)[1..] == a[1..] + b;
    }
  }

  lemma EncodeSnoc(a: seq<Field>, f: Field)
    ensures Encode(a + [f]) == Encode(a) + FieldBytes(f)
  {
    EncodeConcat(a, [f]);
    assert [f][1..] == [];
    assert Encode([f]) == FieldBytes(f) + Encode([]);
  }

  // -------------------------------------------------------------------------- parsing

  /** A parser's outcome: a value and the bytes left, or the malformed-file error. */
  datatype Parsed<+T> = Malformed | Got(value: T, rest: seq<byte>) {
    predicate IsFailure() {
      Malformed?
    }

    function PropagateFailure<U>(): Parsed<U>
      requires Malformed?
    {
      Malformed
    }

    function Extract(): (T, seq<byte>)
      requires Got?
    {
      (value, rest)
    }
  }

  function ParseU8(s: seq<byte>): Parsed<byte> {
    if |s| < 1 then Malformed else Got(s[0], s[1..])
  }

  function ParseU32(s: seq<byte>): (r: Parsed<u32>) {
    if |s| < 4 then Malformed
    else
      NumberOfFour(s[..4]);
      Got(Number(s[..4]), s[4..])
  }

  function ParseU64(s: seq<byte>): (r: Parsed<u64>) {
    if |s| < 8 then Malformed
    else
      NumberOfEight(s[..8]);
      Got(Number(s[..8]), s[8..])
  }

  function ParseText(s: seq<byte>): Parsed<seq<byte>> {
    var (n, t) :- ParseU32(s);
    if n > |t| then Malformed else Got(t[..n], t[n..])
  }

  function ParseDoubles(n: nat, s: seq<byte>): (r: Parsed<seq<Double>>)
    ensures r.Got? ==> |r.value| == n
  {
    if n == 0 then Got([], s)
    else
      var (d, t) :- ParseU64(s);
      var (ds, u) :- ParseDoubles(n - 1, t);
      Got([d] + ds, u)
  }

  /** Skipping n fixed-size point2D records of two doubles and one 64-bit integer. */
  function SkipPoints(n: nat, s: seq<byte>): Parsed<()> {
    if 24 * n <= |s| then Got((), s[24 * n..]) else Malformed
  }

  /** n records in a row. */
  function ParseMany<T>(p: seq<byte> -> Parsed<T>, n: nat, s: seq<byte>): (r: Parsed<seq<T>>)
    ensures r.Got? ==> |r.value| == n
  {
    if n == 0 then Got([], s)
    else
      var (x, t) :- p(s);
      var (xs, u) :- ParseMany(p, n - 1, t);
      Got([x] + xs, u)
  }

  /** A whole file: a record count, refused when it exceeds the bytes left, and the records.
      Bytes after the last record are ignored. */
  function ParseFile<T>(p: seq<byte> -> Parsed<T>, file: seq<byte>): Option<seq<T>> {
    match ParseU64(file)
    case Malformed => None
    case Got(n, s) =>
      if n > |s| then None
      else
        match ParseMany(p, n, s)
        case Malformed => None
        case Got(xs, _) => Some(xs)
  }

  // --------------------------------------------------------------------- camera models

  datatype CameraModel = CameraModel(name: string, numParams: nat, intrinsicModel: string, singleFocal: bool)

  const CAMERA_MODELS: seq<CameraModel> := [
    CameraModel("SIMPLE_PINHOLE", 3, "pinhole", true),
    CameraModel("PINHOLE", 4, "pinhole", false),
    CameraModel("SIMPLE_RADIAL", 4, "opencv", true),
    CameraModel("RADIAL", 5, "opencv", true),
    CameraModel("OPENCV", 8, "opencv", false),
    CameraModel("OPENCV_FISHEYE", 8, "opencv_fisheye", false),
    CameraModel("FULL_OPENCV", 12, "custom", false),
    CameraModel("FOV", 5, "fov", false),
    CameraModel("SIMPLE_RADIAL_FISHEYE", 4, "opencv_fisheye", true),
    CameraModel("RADIAL_FISHEYE", 5, "opencv_fisheye", true),
    CameraModel("THIN_PRISM_FISHEYE", 12, "custom", false)
  ]

  function ModelInfo(id: i32): Option<CameraModel> {
    if 0 <= id < |CAMERA_MODELS| then Some(CAMERA_MODELS[id]) else None
  }

  function DistortionModelForId(id: i32): string {
    match id
    case 0 | 1 => "none"
    case 2 | 3 | 4 => "opencv_radial"
    case 5 | 8 | 9 => "opencv_fisheye"
    case _ => "custom"
  }

  /** Distortion coefficients out of a camera's raw parameter vector. */
  function ExtractDistortion(id: i32, p: seq<Double>): seq<Double> {
    match ModelInfo(id)
    case None => []
    case Some(info) =>
      if info.singleFocal then
        match id
        case 2 | 8 => if |p| > 3 then [p[3]] else []
        case 3 | 9 => if |p| > 4 then [p[3], p[4]] else []
        case _ => []
      else
        match id
        case 4 | 5 => if |p| >= 8 then [p[4], p[5], p[6], p[7]] else []
        case 7 => if |p| > 4 then [p[4]] else []
        case _ => []
  }

  // -------------------------------------------------------------------- parsed records

  datatype Intrinsics = Intrinsics(fx: Double, fy: Double, cx: Double, cy: Double)

  datatype SparseCamera = SparseCamera(cameraId: u32, model: string, intrinsicModel: string, modelId: i32,
                                       width: i64, height: i64, rawParams: seq<Double>, intrinsics: Intrinsics)

  /** The quaternion is stored (w, x, y, z) in the file; here by component name. */
  datatype SparseImage = SparseImage(imageId: u32, cameraId: u32, name: seq<byte>, pose: DPose)

  datatype SparseTrack = SparseTrack(imageId: u32, point2dIdx: u32)

  datatype Color = Color(r: byte, g: byte, b: byte)

  datatype SparsePoint = SparsePoint(point3dId: u64, xyz: DVec, rgb: Color, error: Double, track: seq<SparseTrack>)

  datatype SparseModel = SparseModel(cameras: seq<SparseCamera>, images: seq<SparseImage>, points: seq<SparsePoint>)

  function IntrinsicsOf(info: CameraModel, p: seq<Double>): Intrinsics
    requires |p| >= if info.singleFocal then 3 else 4
  {
    if info.singleFocal then Intrinsics(p[0], p[0], p[1], p[2]) else Intrinsics(p[0], p[1], p[2], p[3])
  }

  function ParseCamera(s0: seq<byte>): Parsed<SparseCamera> {
    var (id, s1) :- ParseU32(s0);
    var (bits, s2) :- ParseU32(s1);
    var modelId := Signed32(bits);
    match ModelInfo(modelId)
    case None => Malformed
    case Some(info) =>
      var (width, s3) :- ParseU64(s2);
      var (height, s4) :- ParseU64(s3);
      var (params, s5) :- ParseDoubles(info.numParams, s4);
      Got(SparseCamera(id, info.name, info.intrinsicModel, modelId, Signed64(width), Signed64(height),
                       params, IntrinsicsOf(info, params)), s5)
  }

  /** An image's name; its 2D points are counted and skipped. */
  function ParseNameAndPoints(s0: seq<byte>): Parsed<seq<byte>> {
    var (name, s1) :- ParseText(s0);
    var (n, s2) :- ParseU64(s1);
    var (_, s3) :- SkipPoints(n, s2);
    Got(name, s3)
  }

  function ParseImage(s0: seq<byte>): Parsed<SparseImage> {
    var (id, s1) :- ParseU32(s0);
    var (q, s2) :- ParseDoubles(4, s1);
    var (t, s3) :- ParseDoubles(3, s2);
    var (cameraId, s4) :- ParseU32(s3);
    var (name, s5) :- ParseNameAndPoints(s4);
    Got(SparseImage(id, cameraId, name, DPose(DQuat(q[1], q[2], q[3], q[0]), DVec(t[0], t[1], t[2]))), s5)
  }

  function ParseTrack(s0: seq<byte>): Parsed<SparseTrack> {
    var (imageId, s1) :- ParseU32(s0);
    var (idx, s2) :- ParseU32(s1);
    Got(SparseTrack(imageId, idx), s2)
  }

  function ParseTracks(s0: seq<byte>): Parsed<seq<SparseTrack>> {
    var (n, s1) :- ParseU64(s0);
    ParseMany(ParseTrack, n, s1)
  }

  function ParseColor(s0: seq<byte>): Parsed<Color> {
    var (r, s1) :- ParseU8(s0);
    var (g, s2) :- ParseU8(s1);
    var (b, s3) :- ParseU8(s2);
    Got(Color(r, g, b), s3)
  }

  function ParsePoint(s0: seq<byte>): Parsed<SparsePoint> {
    var (id, s1) :- ParseU64(s0);
    var (xyz, s2) :- ParseDoubles(3, s1);
    var (color, s3) :- ParseColor(s2);
    var (error, s4) :- ParseU64(s3);
    var (track, s5) :- ParseTracks(s4);
    Got(SparsePoint(id, DVec(xyz[0], xyz[1], xyz[2]), color, error, track), s5)
  }

  function CameraKey(c: SparseCamera): int { c.cameraId }

  function ImageKey(i: SparseImage): int { i.imageId }

  function PointKey(p: SparsePoint): int { p.point3dId }

  /** ParseSparseModel: all three files or nothing, each list sorted by id. */
  function ParseModel(cameras: seq<byte>, images: seq<byte>, points: seq<byte>): Option<SparseModel> {
    match (ParseFile(ParseCamera, cameras), ParseFile(ParseImage, images), ParseFile(ParsePoint, points))
    case (Some(cs), Some(ims), Some(ps)) =>
      Some(SparseModel(SortBy(cs, CameraKey), SortBy(ims, ImageKey), SortBy(ps, PointKey)))
    case _ => None
  }

  // ------------------------------------------------------------- reading back one field

  /** The chunk is one record: whatever follows it, the parser takes exactly the chunk. */
  ghost predicate IsRecord<T>(p: seq<byte> -> Parsed<T>, chunk: seq<byte>, v: T) {
    forall tail :: p(chunk + tail) == Got(v, tail)
  }

  lemma PrefixOfConcat(a: seq<byte>, b: seq<byte>)
    ensures (a + b)[..|a|] == a && (a + b)[|a|..] == b
  {
  }

  lemma U32Record(n: u32)
    ensures IsRecord(ParseU32, Bytes(n, 4), n)
  {
    PowerValues();
    NumberOfBytes(n, 4);
    forall tail
      ensures ParseU32(Bytes(n, 4) + tail) == Got(n, tail)
    {
      PrefixOfConcat(Bytes(n, 4), tail);
    }
  }

  lemma U64Record(n: u64)
    ensures IsRecord(ParseU64, Bytes(n, 8), n)
  {
    PowerValues();
    NumberOfBytes(n, 8);
    forall tail
      ensures ParseU64(Bytes(n, 8) + tail) == Got(n, tail)
    {
      PrefixOfConcat(Bytes(n, 8), tail);
    }
  }

  lemma Regroup(a: seq<byte>, b: seq<byte>, c: seq<byte>)
    ensures a + (b + c) == (a + b) + c
  {
  }

  lemma TextRecord(s: seq<byte>)
    requires |s| < 0x1_0000_0000
    ensures IsRecord(ParseText, Bytes(|s|, 4) + s, s)
  {
    U32Record(|s|);
    forall tail
      ensures ParseText((Bytes(|s|, 4) + s) + tail) == Got(s, tail)
    {
      Regroup(Bytes(|s|, 4), s, tail);
      PrefixOfConcat(s, tail);
    }
  }

  function DoubleFields(ds: seq<Double>): (r: seq<Field>)
    ensures |r| == |ds| && forall i :: 0 <= i < |ds| ==> r[i] == FDouble(ds[i])
  {
    seq(|ds|, i requires 0 <= i < |ds| => FDouble(ds[i]))
  }

  lemma {:induction false} DoublesRecord(ds: seq<Double>, tail: seq<byte>)
    ensures ParseDoubles(|ds|, Encode(DoubleFields(ds)) + tail) == Got(ds, tail)
  {
    if ds == [] {
      assert DoubleFields(ds) == [] && [] + tail == tail;
    } else {
      var rest := Encode(DoubleFields(ds[1..]));
      assert DoubleFields(ds)[1..] == DoubleFields(ds[1..]);
      Regroup(Bytes(ds[0], 8), rest, tail);
      U64Record(ds[0]);
      DoublesRecord(ds[1..], tail);
      assert [ds[0]] + ds[1..] == ds;
    }
  }

  lemma SkipAll(chunk: seq<byte>, n: nat, tail: seq<byte>)
    requires |chunk| == 24 * n
    ensures SkipPoints(n, chunk + tail) == Got((), tail)
  {
    PrefixOfConcat(chunk, tail);
  }

  // ------------------------------------------------------------ reading back one record

  /** Five chunks as one. */
  function Five(a: seq<byte>, b: seq<byte>, c: seq<byte>, d: seq<byte>, e: seq<byte>): seq<byte> {
    a + (b + (c + (d + e)))
  }

  lemma FiveThen(a: seq<byte>, b: seq<byte>, c: seq<byte>, d: seq<byte>, e: seq<byte>, tail: seq<byte>)
    ensures Five(a, b, c, d, e) + tail == a + (b + (c + (d + (e + tail))))
    ensures a != [] ==> Five(a, b, c, d, e) != []
  {
    Regroup(a, b + (c + (d + e)), tail);
    Regroup(b, c + (d + e), tail);
    Regroup(c, d + e, tail);
    Regroup(d, e, tail);
  }

  lemma ParseCameraSteps(s0: seq<byte>, id: u32, s1: seq<byte>, bits: u32, s2: seq<byte>, width: u64, s3: seq<byte>,
                         height: u64, s4: seq<byte>, info: CameraModel, params: seq<Double>, s5: seq<byte>)
    requires ParseU32(s0) == Got(id, s1) && ParseU32(s1) == Got(bits, s2)
    requires ModelInfo(Signed32(bits)) == Some(info)
    requires ParseU64(s2) == Got(width, s3) && ParseU64(s3) == Got(height, s4)
    requires ParseDoubles(info.numParams, s4) == Got(params, s5)
    requires |params| >= if info.singleFocal then 3 else 4
    ensures ParseCamera(s0) == Got(SparseCamera(id, info.name, info.intrinsicModel, Signed32(bits), Signed64(width),
                                                Signed64(height), params, IntrinsicsOf(info, params)), s5)
  {
  }

  lemma TableSizes(id: i32, info: CameraModel)
    requires ModelInfo(id) == Some(info)
    ensures info.numParams >= if info.singleFocal then 3 else 4
  {
  }

  lemma CameraReplays(a: seq<byte>, id: u32, b: seq<byte>, bits: u32, c: seq<byte>, width: u64, d: seq<byte>,
                      height: u64,
                      e: seq<byte>, info: CameraModel, params: seq<Double>, tail: seq<byte>)
    requires IsRecord(ParseU32, a, id) && IsRecord(ParseU32, b, bits) && IsRecord(ParseU64, c, width)
    requires IsRecord(ParseU64, d, height) && ModelInfo(Signed32(bits)) == Some(info) && |params| == info.numParams
    requires forall t :: ParseDoubles(info.numParams, e + t) == Got(params, t)
    requires info.numParams >= if info.singleFocal then 3 else 4
    ensures ParseCamera(Five(a, b, c, d, e) + tail)
         == Got(SparseCamera(id, info.name, info.intrinsicModel, Signed32(bits), Signed64(width), Signed64(height),
                             params, IntrinsicsOf(info, params)), tail)
  {
    var u4 := e + tail;
    var u3 := d + u4;
    var u2 := c + u3;
    var u1 := b + u2;
    FiveThen(a, b, c, d, e, tail);
    ParseCameraSteps(a + u1, id, u1, bits, u2, width, u3, height, u4, info, params, tail);
  }

  lemma ParseImageSteps(s0: seq<byte>, id: u32, s1: seq<byte>, q: seq<Double>, s2: seq<byte>, t: seq<Double>,
                        s3: seq<byte>,
                        cameraId: u32, s4: seq<byte>, name: seq<byte>, s5: seq<byte>)
    requires ParseU32(s0) == Got(id, s1) && ParseDoubles(4, s1) == Got(q, s2) && ParseDoubles(3, s2) == Got(t, s3)
    requires ParseU32(s3) == Got(cameraId, s4) && ParseNameAndPoints(s4) == Got(name, s5)
    requires |q| == 4 && |t| == 3
    ensures ParseImage(s0)
         == Got(SparseImage(id, cameraId, name, DPose(DQuat(q[1], q[2], q[3], q[0]), DVec(t[0], t[1], t[2]))), s5)
  {
  }

  lemma ImageReplays(a: seq<byte>, id: u32, b: seq<byte>, q: seq<Double>, c: seq<byte>, t: seq<Double>, d: seq<byte>,
                     cam: u32,
                     e: seq<byte>, name: seq<byte>, tail: seq<byte>)
    requires IsRecord(ParseU32, a, id) && IsRecord(ParseU32, d, cam) && IsRecord(ParseNameAndPoints, e, name)
    requires |q| == 4 && |t| == 3
    requires forall u :: ParseDoubles(4, b + u) == Got(q, u)
    requires forall u :: ParseDoubles(3, c + u) == Got(t, u)
    ensures ParseImage(Five(a, b, c, d, e) + tail)
         == Got(SparseImage(id, cam, name, DPose(DQuat(q[1], q[2], q[3], q[0]), DVec(t[0], t[1], t[2]))), tail)
  {
    var u4 := e + tail;
    var u3 := d + u4;
    var u2 := c + u3;
    var u1 := b + u2;
    FiveThen(a, b, c, d, e, tail);
    ParseImageSteps(a + u1, id, u1, q, u2, t, u3, cam, u4, name, tail);
  }

  lemma ParsePointSteps(s0: seq<byte>, id: u64, s1: seq<byte>, xyz: seq<Double>, s2: seq<byte>, color: Color,
                        s3: seq<byte>,
                        error: Double, s4: seq<byte>, track: seq<SparseTrack>, s5: seq<byte>)
    requires ParseU64(s0) == Got(id, s1) && ParseDoubles(3, s1) == Got(xyz, s2) && |xyz| == 3
    requires ParseColor(s2) == Got(color, s3) && ParseU64(s3) == Got(error, s4) && ParseTracks(s4) == Got(track, s5)
    ensures ParsePoint(s0) == Got(SparsePoint(id, DVec(xyz[0], xyz[1], xyz[2]), color, error, track), s5)
  {
  }

  lemma PointReplays(a: seq<byte>, id: u64, b: seq<byte>, xyz: seq<Double>, c: seq<byte>, color: Color,
                     d: seq<byte>, error: Double, e: seq<byte>, track: seq<SparseTrack>, tail: seq<byte>)
    requires IsRecord(ParseU64, a, id) && IsRecord(ParseColor, c, color) && IsRecord(ParseU64, d, error)
    requires IsRecord(ParseTracks, e, track) && |xyz| == 3 && forall u :: ParseDoubles(3, b + u) == Got(xyz, u)
    ensures ParsePoint(Five(a, b, c, d, e) + tail)
         == Got(SparsePoint(id, DVec(xyz[0], xyz[1], xyz[2]), color, error, track), tail)
  {
    var u4 := e + tail;
    var u3 := d + u4;
    var u2 := c + u3;
    var u1 := b + u2;
    FiveThen(a, b, c, d, e, tail);
    ParsePointSteps(a + u1, id, u1, xyz, u2, color, u3, error, u4, track, tail);
  }

  // ----------------------------------------------------------- reading back whole files

  function Join(chunks: seq<seq<byte>>): seq<byte> {
    if chunks == [] then [] else chunks[0] + Join(chunks[1..])
  }

  ghost predicate AreRecords<T>(p: seq<byte> -> Parsed<T>, chunks: seq<seq<byte>>, vs: seq<T>) {
    && |chunks| == |vs|
    && forall i :: 0 <= i < |vs| ==> IsRecord(p, chunks[i], vs[i]) && chunks[i] != []
  }

  lemma {:induction false} ParseManyRecords<T>(p: seq<byte> -> Parsed<T>, chunks: seq<seq<byte>>, vs: seq<T>,
                                               tail: seq<byte>)
    requires AreRecords(p, chunks, vs)
    ensures ParseMany(p, |vs|, Join(chunks) + tail) == Got(vs, tail)
    ensures |Join(chunks)| >= |vs|
  {
    if vs == [] {
      assert Join(chunks) + tail == tail;
    } else {
      assert Join(chunks) + tail == chunks[0] + (Join(chunks[1..]) + tail);
      assert IsRecord(p, chunks[0], vs[0]);
      forall i | 0 <= i < |vs[1..]|
        ensures IsRecord(p, chunks[1..][i], vs[1..][i]) && chunks[1..][i] != []
      {
        assert IsRecord(p, chunks[i + 1], vs[i + 1]);
      }
      ParseManyRecords(p, chunks[1..], vs[1..], tail);
      assert [vs[0]] + vs[1..] == vs;
    }
  }

  /** A count and that many records, and anything after them, read back as the records. */
  lemma ParseFileRecords<T>(p: seq<byte> -> Parsed<T>, chunks: seq<seq<byte>>, vs: seq<T>, junk: seq<byte>)
    requires AreRecords(p, chunks, vs) && |vs| < 0x1_0000_0000_0000_0000
    ensures ParseFile(p, Bytes(|vs|, 8) + (Join(chunks) + junk)) == Some(vs)
  {
    PrefixOfConcat(Bytes(|vs|, 8), Join(chunks) + junk);
    PowerValues();
    NumberOfBytes(|vs|, 8);
    ParseManyRecords(p, chunks, vs, junk);
  }
}
