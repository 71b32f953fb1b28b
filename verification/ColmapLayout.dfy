/** Where the numbers of a native record stand: byte offsets in what the writer puts into
    cameras.bin, images.bin and points3D.bin, all numbers little-endian. */
module ColmapLayout {
  import opened Wrappers
  import opened LittleEndian
  import opened Geometry
  import opened Binary64
  import opened ColmapFormat
  import opened ColmapModel

  /** The k bytes from offset o on as a number, least significant byte first. */
  function ReadAt(b: seq<byte>, o: nat, k: nat): nat
    requires o + k <= |b|
    decreases k, b
  {
    if k == 0 then 0 else b[o] + 0x100 * ReadAt(b, o + 1, k - 1)
  }

  predicate HoldsAt(b: seq<byte>, o: nat, k: nat, n: nat) {
    o + k <= |b| && ReadAt(b, o, k) == n
  }

  lemma {:induction false} BytesHold(b: seq<byte>, o: nat, k: nat, n: nat)
    requires o + k <= |b| && b[o..o + k] == Bytes(n, k) && n < Power256(k)
    ensures HoldsAt(b, o, k, n)
    decreases k
  {
    if k > 0 {
      var s := b[o..o + k];
      assert s[0] == n % 0x100;
      assert s[1..] == b[o + 1..o + 1 + (k - 1)] && s[1..] == Bytes(n / 0x100, k - 1);
      BytesHold(b, o + 1, k - 1, n / 0x100);
    }
  }

  // ------------------------------------------------------------------------ fields at offsets

  predicate FieldAt(b: seq<byte>, o: nat, f: Field) {
    o + |FieldBytes(f)| <= |b| && b[o..o + |FieldBytes(f)|] == FieldBytes(f)
  }

  /** Where the i-th field starts. */
  function Offset(fs: seq<Field>, i: nat): nat
    requires i <= |fs|
  {
    if i == 0 then 0 else Offset(fs, i - 1) + |FieldBytes(fs[i - 1])|
  }

  predicate Starts(fs: seq<Field>, i: nat, o: nat) {
    i <= |fs| && Offset(fs, i) == o
  }

  /** The first n fields stand at their offsets. */
  predicate Written(b: seq<byte>, fs: seq<Field>, n: nat)
    requires n <= |fs|
  {
    n == 0 || (Written(b, fs, n - 1) && FieldAt(b, Offset(fs, n - 1), fs[n - 1]))
  }

  lemma {:induction false} EncodedLength(fs: seq<Field>, i: nat)
    requires i <= |fs|
    ensures |Encode(fs[..i])| == Offset(fs, i)
  {
    if i > 0 {
      EncodedLength(fs, i - 1);
      assert fs[..i] == fs[..i - 1] + [fs[i - 1]];
      EncodeSnoc(fs[..i - 1], fs[i - 1]);
    }
  }

  lemma {:induction false} Split(b: seq<byte>, x: seq<byte>, y: seq<byte>, z: seq<byte>)
    requires b == x + (y + z)
    ensures |b| >= |x| + |y| && b[|x|..|x| + |y|] == y
  {
  }

  lemma {:induction false} EncodedField(fs: seq<Field>, i: nat)
    requires i < |fs|
    ensures FieldAt(Encode(fs), Offset(fs, i), fs[i])
  {
    EncodedLength(fs, i);
    assert fs == fs[..i] + fs[i..];
    EncodeConcat(fs[..i], fs[i..]);
    assert fs[i..][0] == fs[i];
    Split(Encode(fs), Encode(fs[..i]), FieldBytes(fs[i]), Encode(fs[i..][1..]));
  }

  lemma {:induction false} EncodingWritten(fs: seq<Field>, n: nat)
    requires n <= |fs|
    ensures Written(Encode(fs), fs, n)
  {
    if n > 0 {
      EncodedField(fs, n - 1);
      EncodingWritten(fs, n - 1);
    }
  }

  lemma {:induction false} FieldWritten(b: seq<byte>, fs: seq<Field>, n: nat, i: nat)
    requires i < n <= |fs| && Written(b, fs, n)
    ensures FieldAt(b, Offset(fs, i), fs[i])
  {
    if i < n - 1 {
      FieldWritten(b, fs, n - 1, i);
    }
  }

  /** The bytes of a record's fields. */
  predicate IsEncoded(b: seq<byte>, fs: seq<Field>) {
    Written(b, fs, |fs|)
  }

  lemma {:induction false} IsItsEncoding(fs: seq<Field>, b: seq<byte>)
    requires b == Encode(fs)
    ensures IsEncoded(b, fs) && Starts(fs, 0, 0) && Starts(fs, |fs|, |b|)
  {
    EncodingWritten(fs, |fs|);
    EncodedLength(fs, |fs|);
    assert fs[..|fs|] == fs;
  }

  /** How many bytes a number takes, and which number it is. */
  function Width(f: Field): nat
    requires !f.FText?
  {
    match f
    case FByte(_) => 1
    case FU32(_) => 4
    case FU64(_) => 8
    case FDouble(_) => 8
  }

  function Content(f: Field): nat
    requires !f.FText?
  {
    match f
    case FByte(b) => b
    case FU32(n) => n
    case FU64(n) => n
    case FDouble(d) => d
  }

  lemma {:induction false} NumberField(f: Field)
    requires !f.FText?
    ensures FieldBytes(f) == Bytes(Content(f), Width(f)) && Content(f) < Power256(Width(f))
  {
    PowerValues();
    if f.FByte? {
      assert Bytes(f.b / 0x100, 0) == [];
      assert Bytes(f.b, 1) == [f.b] + [];
    }
  }

  lemma {:induction false} NumberAt(b: seq<byte>, fs: seq<Field>, i: nat, o: nat, f: Field)
    requires IsEncoded(b, fs) && Starts(fs, i, o) && i < |fs| && fs[i] == f && !f.FText?
    ensures HoldsAt(b, o, Width(f), Content(f)) && Starts(fs, i + 1, o + Width(f))
  {
    FieldWritten(b, fs, |fs|, i);
    NumberField(f);
    BytesHold(b, o, Width(f), Content(f));
  }

  /** The next number, given the bytes; its width and value spelled out. */
  lemma {:induction false} DoubleAt(b: seq<byte>, fs: seq<Field>, i: nat, o: nat, d: Double)
    requires IsEncoded(b, fs) && Starts(fs, i, o) && i < |fs| && fs[i] == FDouble(d)
    ensures HoldsAt(b, o, 8, d) && Starts(fs, i + 1, o + 8)
  {
    NumberAt(b, fs, i, o, FDouble(d));
  }

  lemma {:induction false} WordAt(b: seq<byte>, fs: seq<Field>, i: nat, o: nat, n: u32)
    requires IsEncoded(b, fs) && Starts(fs, i, o) && i < |fs| && fs[i] == FU32(n)
    ensures HoldsAt(b, o, 4, n) && Starts(fs, i + 1, o + 4)
  {
    NumberAt(b, fs, i, o, FU32(n));
  }

  lemma {:induction false} LongAt(b: seq<byte>, fs: seq<Field>, i: nat, o: nat, n: u64)
    requires IsEncoded(b, fs) && Starts(fs, i, o) && i < |fs| && fs[i] == FU64(n)
    ensures HoldsAt(b, o, 8, n) && Starts(fs, i + 1, o + 8)
  {
    NumberAt(b, fs, i, o, FU64(n));
  }

  lemma {:induction false} ByteAt(b: seq<byte>, fs: seq<Field>, i: nat, o: nat, n: byte)
    requires IsEncoded(b, fs) && Starts(fs, i, o) && i < |fs| && fs[i] == FByte(n)
    ensures HoldsAt(b, o, 1, n) && Starts(fs, i + 1, o + 1)
  {
    NumberAt(b, fs, i, o, FByte(n));
  }

  // Doubles one after the other.

  ghost predicate DoublesFrom(fs: seq<Field>, i: nat, ds: seq<Double>) {
    i + |ds| <= |fs| && forall k :: 0 <= k < |ds| ==> fs[i + k] == FDouble(ds[k])
  }

  predicate DoubleHolds(b: seq<byte>, o: nat, ds: seq<Double>, k: nat)
    requires k < |ds|
  {
    HoldsAt(b, o + 8 * k, 8, ds[k])
  }

  ghost predicate DoublesHold(b: seq<byte>, o: nat, ds: seq<Double>) {
    forall k :: 0 <= k < |ds| ==> DoubleHolds(b, o, ds, k)
  }

  lemma {:induction false} DoublesStart(fs: seq<Field>, i: nat, o: nat, ds: seq<Double>, n: nat)
    requires Starts(fs, i, o) && DoublesFrom(fs, i, ds) && n <= |ds|
    ensures Starts(fs, i + n, o + 8 * n)
  {
    if n > 0 {
      DoublesStart(fs, i, o, ds, n - 1);
      assert fs[i + (n - 1)] == FDouble(ds[n - 1]);
    }
  }

  lemma {:induction false} DoublesAt(b: seq<byte>, fs: seq<Field>, i: nat, o: nat, ds: seq<Double>)
    requires IsEncoded(b, fs) && Starts(fs, i, o) && DoublesFrom(fs, i, ds)
    ensures DoublesHold(b, o, ds)
  {
    forall k | 0 <= k < |ds|
      ensures DoubleHolds(b, o, ds, k)
    {
      DoublesStart(fs, i, o, ds, k);
      DoubleAt(b, fs, i + k, o + 8 * k, ds[k]);
    }
  }

  lemma {:induction false} SliceAt(fs: seq<Field>, i: nat, k: nat)
    requires i + k < |fs|
    ensures fs[i + k] == fs[i..][k]
  {
  }

  // -------------------------------------------------------------------------------- cameras

  predicate CameraHeaderAt(b: seq<byte>, c: ReconCamera, row: RowCamera) {
    && HoldsAt(b, 0, 4, c.cameraId) && HoldsAt(b, 4, 4, Unsigned32(row.modelId))
    && HoldsAt(b, 8, 8, Unsigned64(c.width)) && HoldsAt(b, 16, 8, Unsigned64(c.height))
  }

  lemma {:induction false} CameraParts(c: ReconCamera, row: RowCamera)
    ensures var fs := CameraFields(c, row);
            && |fs| == 4 + |row.params| && fs[0] == FU32(c.cameraId) && fs[1] == FU32(Unsigned32(row.modelId))
            && fs[2] == FU64(Unsigned64(c.width)) && fs[3] == FU64(Unsigned64(c.height))
            && DoublesFrom(fs, 4, row.params)
  {
    var fs := CameraFields(c, row);
    forall k | 0 <= k < |row.params|
      ensures fs[4 + k] == FDouble(row.params[k])
    {
      assert fs[4 + k] == DoubleFields(row.params)[k];
    }
  }

  lemma {:induction false} CameraHeader(b: seq<byte>, fs: seq<Field>, c: ReconCamera, row: RowCamera)
    requires IsEncoded(b, fs) && Starts(fs, 0, 0) && |fs| >= 4
    requires fs[0] == FU32(c.cameraId) && fs[1] == FU32(Unsigned32(row.modelId))
    requires fs[2] == FU64(Unsigned64(c.width)) && fs[3] == FU64(Unsigned64(c.height))
    ensures CameraHeaderAt(b, c, row) && Starts(fs, 4, 24)
  {
    WordAt(b, fs, 0, 0, c.cameraId);
    WordAt(b, fs, 1, 4, Unsigned32(row.modelId));
    LongAt(b, fs, 2, 8, Unsigned64(c.width));
    LongAt(b, fs, 3, 16, Unsigned64(c.height));
  }

  /** A camera: id, model, width, height, and the parameters from offset 24 on. */
  lemma {:induction false} CameraLayout(c: ReconCamera, row: RowCamera)
    requires CameraRecord(c) == Ok(row)
    ensures var b := Encode(CameraRowFields(c));
            |b| == 24 + 8 * |row.params| && CameraHeaderAt(b, c, row) && DoublesHold(b, 24, row.params)
  {
    var fs := CameraFields(c, row);
    var b := Encode(fs);
    IsItsEncoding(fs, b);
    CameraParts(c, row);
    CameraHeader(b, fs, c, row);
    DoublesStart(fs, 4, 24, row.params, |row.params|);
    DoublesAt(b, fs, 4, 24, row.params);
  }

  // --------------------------------------------------------------------------------- images

  /** The pose whose numbers stand at offset 4: the quaternion, its real part first, and the
      translation. */
  predicate PoseAt(b: seq<byte>, n: DPose) {
    && HoldsAt(b, 4, 8, n.rotation.w) && HoldsAt(b, 12, 8, n.rotation.x) && HoldsAt(b, 20, 8, n.rotation.y)
    && HoldsAt(b, 28, 8, n.rotation.z)
    && HoldsAt(b, 36, 8, n.translation.x) && HoldsAt(b, 44, 8, n.translation.y) && HoldsAt(b, 52, 8, n.translation.z)
  }

  /** The fields of a pose. */
  predicate PoseFieldsFrom(fs: seq<Field>, n: DPose) {
    && |fs| >= 8
    && fs[1] == FDouble(n.rotation.w) && fs[2] == FDouble(n.rotation.x) && fs[3] == FDouble(n.rotation.y)
    && fs[4] == FDouble(n.rotation.z)
    && fs[5] == FDouble(n.translation.x) && fs[6] == FDouble(n.translation.y) && fs[7] == FDouble(n.translation.z)
  }

  lemma {:induction false} PoseFieldsAt(b: seq<byte>, fs: seq<Field>, n: DPose)
    requires IsEncoded(b, fs) && Starts(fs, 1, 4) && PoseFieldsFrom(fs, n)
    ensures PoseAt(b, n) && Starts(fs, 8, 60)
  {
    DoubleAt(b, fs, 1, 4, n.rotation.w);
    DoubleAt(b, fs, 2, 12, n.rotation.x);
    DoubleAt(b, fs, 3, 20, n.rotation.y);
    DoubleAt(b, fs, 4, 28, n.rotation.z);
    DoubleAt(b, fs, 5, 36, n.translation.x);
    DoubleAt(b, fs, 6, 44, n.translation.y);
    DoubleAt(b, fs, 7, 52, n.translation.z);
  }

  /** One keypoint: its coordinates and the point it observes. */
  predicate KeypointAt(b: seq<byte>, o: nat, k: Keypoint, point: u64) {
    HoldsAt(b, o, 8, k.x) && HoldsAt(b, o + 8, 8, k.y) && HoldsAt(b, o + 16, 8, point)
  }

  lemma {:induction false} KeypointFieldAt(points: seq<ReconPoint>, id: u32, ks: seq<Keypoint>, n: nat, k: nat)
    requires k < n <= |ks|
    ensures |KeypointFields(points, id, ks, n)| == 3 * n
    ensures KeypointFields(points, id, ks, n)[3 * k] == FDouble(ks[k].x)
    ensures KeypointFields(points, id, ks, n)[3 * k + 1] == FDouble(ks[k].y)
    ensures KeypointFields(points, id, ks, n)[3 * k + 2] == FU64(ObservedPoint(points, id, Count32(k)))
  {
    KeypointFieldCount(points, id, ks, n - 1);
    if k < n - 1 {
      KeypointFieldAt(points, id, ks, n - 1, k);
    }
  }

  lemma {:induction false} KeypointFieldCount(points: seq<ReconPoint>, id: u32, ks: seq<Keypoint>, n: nat)
    requires n <= |ks|
    ensures |KeypointFields(points, id, ks, n)| == 3 * n
  {
    if n > 0 {
      KeypointFieldCount(points, id, ks, n - 1);
    }
  }

  /** The three fields of a keypoint. */
  predicate ThreeFrom(fs: seq<Field>, j: nat, k: Keypoint, point: u64) {
    j + 3 <= |fs| && fs[j] == FDouble(k.x) && fs[j + 1] == FDouble(k.y) && fs[j + 2] == FU64(point)
  }

  lemma {:induction false} ThreeStart(fs: seq<Field>, j: nat, o: nat, k: Keypoint, point: u64)
    requires Starts(fs, j, o) && ThreeFrom(fs, j, k, point)
    ensures Starts(fs, j + 1, o + 8) && Starts(fs, j + 2, o + 16) && Starts(fs, j + 3, o + 24)
  {
  }

  lemma {:induction false} ThreeAt(b: seq<byte>, fs: seq<Field>, j: nat, o: nat, k: Keypoint, point: u64)
    requires IsEncoded(b, fs) && Starts(fs, j, o) && ThreeFrom(fs, j, k, point)
    ensures KeypointAt(b, o, k, point)
  {
    DoubleAt(b, fs, j, o, k.x);
    DoubleAt(b, fs, j + 1, o + 8, k.y);
    LongAt(b, fs, j + 2, o + 16, point);
  }

  predicate KeypointFrom(fs: seq<Field>, i: nat, points: seq<ReconPoint>, id: u32, ks: seq<Keypoint>, k: nat)
    requires k < |ks|
  {
    ThreeFrom(fs, i + 3 * k, ks[k], ObservedPoint(points, id, Count32(k)))
  }

  ghost predicate KeypointsFrom(fs: seq<Field>, i: nat, points: seq<ReconPoint>, id: u32, ks: seq<Keypoint>) {
    |fs| == i + 3 * |ks| && forall k :: 0 <= k < |ks| ==> KeypointFrom(fs, i, points, id, ks, k)
  }

  predicate KeypointHolds(b: seq<byte>, o: nat, points: seq<ReconPoint>, id: u32, ks: seq<Keypoint>, k: nat)
    requires k < |ks|
  {
    KeypointAt(b, o + 24 * k, ks[k], ObservedPoint(points, id, Count32(k)))
  }

  ghost predicate KeypointsHold(b: seq<byte>, o: nat, points: seq<ReconPoint>, id: u32, ks: seq<Keypoint>) {
    forall k :: 0 <= k < |ks| ==> KeypointHolds(b, o, points, id, ks, k)
  }

  lemma {:induction false} KeypointsStart(fs: seq<Field>, i: nat, o: nat, points: seq<ReconPoint>, id: u32,
                                          ks: seq<Keypoint>, n: nat)
    requires Starts(fs, i, o) && KeypointsFrom(fs, i, points, id, ks) && n <= |ks|
    ensures Starts(fs, i + 3 * n, o + 24 * n)
  {
    if n > 0 {
      KeypointsStart(fs, i, o, points, id, ks, n - 1);
      assert KeypointFrom(fs, i, points, id, ks, n - 1);
      ThreeStart(fs, i + 3 * (n - 1), o + 24 * (n - 1), ks[n - 1], ObservedPoint(points, id, Count32(n - 1)));
    }
  }

  lemma {:induction false} KeypointsAt(b: seq<byte>, fs: seq<Field>, i: nat, o: nat, points: seq<ReconPoint>, id: u32,
                                       ks: seq<Keypoint>)
    requires IsEncoded(b, fs) && Starts(fs, i, o) && KeypointsFrom(fs, i, points, id, ks)
    ensures KeypointsHold(b, o, points, id, ks)
  {
    forall k | 0 <= k < |ks|
      ensures KeypointHolds(b, o, points, id, ks, k)
    {
      KeypointsStart(fs, i, o, points, id, ks, k);
      assert KeypointFrom(fs, i, points, id, ks, k);
      ThreeAt(b, fs, i + 3 * k, o + 24 * k, ks[k], ObservedPoint(points, id, Count32(k)));
    }
  }

  lemma {:induction false} KeypointFieldsFrom(fs: seq<Field>, i: nat, points: seq<ReconPoint>, id: u32,
                                              ks: seq<Keypoint>)
    requires i <= |fs| && fs[i..] == KeypointFields(points, id, ks, |ks|)
    ensures KeypointsFrom(fs, i, points, id, ks)
  {
    KeypointFieldCount(points, id, ks, |ks|);
    forall k | 0 <= k < |ks|
      ensures KeypointFrom(fs, i, points, id, ks, k)
    {
      KeypointFieldAt(points, id, ks, |ks|, k);
      SliceAt(fs, i, 3 * k);
      SliceAt(fs, i, 3 * k + 1);
      SliceAt(fs, i, 3 * k + 2);
    }
  }

  lemma {:induction false} PosedParts(n: DPose, points: seq<ReconPoint>, i: ReconImage, ks: seq<Keypoint>)
    ensures var fs := PosedFields(n, points, i, ks);
            && |fs| >= 12 && fs[0] == FU32(i.imageId)
            && PoseFieldsFrom(fs, n)
            && fs[8] == FU32(i.cameraId) && fs[9] == FU32(Count32(|i.name|)) && fs[10] == FText(i.name)
            && fs[11] == FU64(Count64(|ks|))
            && fs[12..] == KeypointFields(points, i.imageId, ks, |ks|)
  {
  }

  /** The camera's id, the name after its length, and the number of keypoints. */
  predicate ImageHeaderHolds(b: seq<byte>, i: ReconImage, n: u64) {
    && HoldsAt(b, 60, 4, i.cameraId) && HoldsAt(b, 64, 4, Count32(|i.name|))
    && |b| >= 68 + |i.name| && b[68..68 + |i.name|] == i.name && HoldsAt(b, 68 + |i.name|, 8, n)
  }

  lemma {:induction false} ImageHeaderAt(b: seq<byte>, fs: seq<Field>, i: ReconImage, n: u64)
    requires IsEncoded(b, fs) && Starts(fs, 8, 60) && |fs| >= 12
    requires fs[8] == FU32(i.cameraId) && fs[9] == FU32(Count32(|i.name|)) && fs[10] == FText(i.name)
    requires fs[11] == FU64(n)
    ensures ImageHeaderHolds(b, i, n)
    ensures Starts(fs, 12, 76 + |i.name|)
  {
    WordAt(b, fs, 8, 60, i.cameraId);
    WordAt(b, fs, 9, 64, Count32(|i.name|));
    FieldWritten(b, fs, |fs|, 10);
    LongAt(b, fs, 11, 68 + |i.name|, n);
  }

  /** An image: id, the converted pose, the camera's id, the name after its length, and for
      each keypoint its coordinates and the point whose track holds it. */
  lemma {:induction false} ImageLayout(fp: Rounding, points: seq<ReconPoint>, i: ReconImage, ks: seq<Keypoint>)
    ensures var b, l := Encode(ImageFields(fp, points, i, ks)), |i.name|;
            && |b| == 76 + l + 24 * |ks| && HoldsAt(b, 0, 4, i.imageId) && PoseAt(b, ConvertPose(fp, i.pose))
            && ImageHeaderHolds(b, i, Count64(|ks|)) && KeypointsHold(b, 76 + l, points, i.imageId, ks)
  {
    PosedLayout(ConvertPose(fp, i.pose), points, i, ks);
  }

  lemma {:induction false} PosedLayout(n: DPose, points: seq<ReconPoint>, i: ReconImage, ks: seq<Keypoint>)
    ensures var b, l := Encode(PosedFields(n, points, i, ks)), |i.name|;
            && |b| == 76 + l + 24 * |ks| && HoldsAt(b, 0, 4, i.imageId) && PoseAt(b, n)
            && ImageHeaderHolds(b, i, Count64(|ks|)) && KeypointsHold(b, 76 + l, points, i.imageId, ks)
  {
    var fs, l := PosedFields(n, points, i, ks), |i.name|;
    var b := Encode(fs);
    IsItsEncoding(fs, b);
    PosedParts(n, points, i, ks);
    KeypointFieldsFrom(fs, 12, points, i.imageId, ks);
    WordAt(b, fs, 0, 0, i.imageId);
    PoseFieldsAt(b, fs, n);
    ImageHeaderAt(b, fs, i, Count64(|ks|));
    KeypointsStart(fs, 12, 76 + l, points, i.imageId, ks, |ks|);
    KeypointsAt(b, fs, 12, 76 + l, points, i.imageId, ks);
  }

  // --------------------------------------------------------------------------------- points

  lemma {:induction false} TrackFieldAt(track: seq<TrackElement>, n: nat, k: nat)
    requires k < n <= |track|
    ensures |Records(track, TrackElementFields, n)| == 2 * n
    ensures Records(track, TrackElementFields, n)[2 * k] == FU32(track[k].imageId)
    ensures Records(track, TrackElementFields, n)[2 * k + 1] == FU32(Unsigned32(track[k].point2dIdx))
  {
    TrackFieldCount(track, n - 1);
    if k < n - 1 {
      TrackFieldAt(track, n - 1, k);
    }
  }

  lemma {:induction false} TrackFieldCount(track: seq<TrackElement>, n: nat)
    requires n <= |track|
    ensures |Records(track, TrackElementFields, n)| == 2 * n
  {
    if n > 0 {
      TrackFieldCount(track, n - 1);
    }
  }

  predicate ElementAt(b: seq<byte>, o: nat, te: TrackElement) {
    HoldsAt(b, o, 4, te.imageId) && HoldsAt(b, o + 4, 4, Unsigned32(te.point2dIdx))
  }

  predicate PairFrom(fs: seq<Field>, i: nat, track: seq<TrackElement>, k: nat)
    requires k < |track|
  {
    && i + 2 * k + 2 <= |fs|
    && fs[i + 2 * k] == FU32(track[k].imageId) && fs[i + 2 * k + 1] == FU32(Unsigned32(track[k].point2dIdx))
  }

  ghost predicate TrackFrom(fs: seq<Field>, i: nat, track: seq<TrackElement>) {
    |fs| == i + 2 * |track| && forall k :: 0 <= k < |track| ==> PairFrom(fs, i, track, k)
  }

  predicate ElementHolds(b: seq<byte>, o: nat, track: seq<TrackElement>, k: nat)
    requires k < |track|
  {
    ElementAt(b, o + 8 * k, track[k])
  }

  ghost predicate TrackHolds(b: seq<byte>, o: nat, track: seq<TrackElement>) {
    forall k :: 0 <= k < |track| ==> ElementHolds(b, o, track, k)
  }

  lemma {:induction false} TrackStart(fs: seq<Field>, i: nat, o: nat, track: seq<TrackElement>, n: nat)
    requires Starts(fs, i, o) && TrackFrom(fs, i, track) && n <= |track|
    ensures Starts(fs, i + 2 * n, o + 8 * n)
  {
    if n > 0 {
      TrackStart(fs, i, o, track, n - 1);
      assert PairFrom(fs, i, track, n - 1);
      var j := i + 2 * (n - 1);
      assert Offset(fs, j + 1) == Offset(fs, j) + 4 && Offset(fs, j + 2) == Offset(fs, j + 1) + 4;
    }
  }

  lemma {:induction false} TrackAt(b: seq<byte>, fs: seq<Field>, i: nat, o: nat, track: seq<TrackElement>)
    requires IsEncoded(b, fs) && Starts(fs, i, o) && TrackFrom(fs, i, track)
    ensures TrackHolds(b, o, track)
  {
    forall k | 0 <= k < |track|
      ensures ElementHolds(b, o, track, k)
    {
      TrackStart(fs, i, o, track, k);
      assert PairFrom(fs, i, track, k);
      WordAt(b, fs, i + 2 * k, o + 8 * k, track[k].imageId);
      WordAt(b, fs, i + 2 * k + 1, o + 8 * k + 4, Unsigned32(track[k].point2dIdx));
    }
  }

  lemma {:induction false} TrackFieldsFrom(fs: seq<Field>, i: nat, track: seq<TrackElement>)
    requires i <= |fs| && fs[i..] == Records(track, TrackElementFields, |track|)
    ensures TrackFrom(fs, i, track)
  {
    TrackFieldCount(track, |track|);
    forall k | 0 <= k < |track|
      ensures PairFrom(fs, i, track, k)
    {
      TrackFieldAt(track, |track|, k);
      SliceAt(fs, i, 2 * k);
      SliceAt(fs, i, 2 * k + 1);
    }
  }

  lemma {:induction false} PointParts(p: ReconPoint)
    ensures var fs := PointFields(p);
            && |fs| >= 9 && fs[0] == FU64(p.point3dId)
            && fs[1] == FDouble(p.xyz.x) && fs[2] == FDouble(p.xyz.y) && fs[3] == FDouble(p.xyz.z)
            && fs[4] == FByte(p.color.r) && fs[5] == FByte(p.color.g) && fs[6] == FByte(p.color.b)
            && fs[7] == FDouble(p.error) && fs[8] == FU64(Count64(|p.track|))
            && fs[9..] == Records(p.track, TrackElementFields, |p.track|)
  {
  }

  /** Id and position. */
  predicate PositionAt(b: seq<byte>, p: ReconPoint) {
    && HoldsAt(b, 0, 8, p.point3dId) && HoldsAt(b, 8, 8, p.xyz.x) && HoldsAt(b, 16, 8, p.xyz.y)
    && HoldsAt(b, 24, 8, p.xyz.z)
  }

  /** Colour, error and the length of the track. */
  predicate ColorAt(b: seq<byte>, p: ReconPoint) {
    && HoldsAt(b, 32, 1, p.color.r) && HoldsAt(b, 33, 1, p.color.g) && HoldsAt(b, 34, 1, p.color.b)
    && HoldsAt(b, 35, 8, p.error) && HoldsAt(b, 43, 8, Count64(|p.track|))
  }

  lemma {:induction false} PositionFields(b: seq<byte>, fs: seq<Field>, p: ReconPoint)
    requires IsEncoded(b, fs) && Starts(fs, 0, 0) && |fs| >= 4 && fs[0] == FU64(p.point3dId)
    requires fs[1] == FDouble(p.xyz.x) && fs[2] == FDouble(p.xyz.y) && fs[3] == FDouble(p.xyz.z)
    ensures PositionAt(b, p) && Starts(fs, 4, 32)
  {
    LongAt(b, fs, 0, 0, p.point3dId);
    DoubleAt(b, fs, 1, 8, p.xyz.x);
    DoubleAt(b, fs, 2, 16, p.xyz.y);
    DoubleAt(b, fs, 3, 24, p.xyz.z);
  }

  lemma {:induction false} ColorFields(b: seq<byte>, fs: seq<Field>, p: ReconPoint)
    requires IsEncoded(b, fs) && Starts(fs, 4, 32) && |fs| >= 9
    requires fs[4] == FByte(p.color.r) && fs[5] == FByte(p.color.g) && fs[6] == FByte(p.color.b)
    requires fs[7] == FDouble(p.error) && fs[8] == FU64(Count64(|p.track|))
    ensures ColorAt(b, p) && Starts(fs, 9, 51)
  {
    ByteAt(b, fs, 4, 32, p.color.r);
    ByteAt(b, fs, 5, 33, p.color.g);
    ByteAt(b, fs, 6, 34, p.color.b);
    DoubleAt(b, fs, 7, 35, p.error);
    LongAt(b, fs, 8, 43, Count64(|p.track|));
  }

  /** A point: id, position, colour, error, and the track after its length. */
  lemma {:induction false} PointLayout(p: ReconPoint)
    ensures var b := Encode(PointFields(p));
            |b| == 51 + 8 * |p.track| && PositionAt(b, p) && ColorAt(b, p) && TrackHolds(b, 51, p.track)
  {
    var fs := PointFields(p);
    var b := Encode(fs);
    IsItsEncoding(fs, b);
    PointParts(p);
    TrackFieldsFrom(fs, 9, p.track);
    PositionFields(b, fs, p);
    ColorFields(b, fs, p);
    TrackStart(fs, 9, 51, p.track, |p.track|);
    TrackAt(b, fs, 9, 51, p.track);
  }

  // ------------------------------------------------------------------- what the pose stands for

  lemma {:induction false} SamePose(b: seq<byte>, n: DPose, m: DPose)
    requires PoseAt(b, n) && PoseAt(b, m)
    ensures n == m
  {
  }

  /** The pose that stands in the written image takes every point back where the image's own
      pose took it from: the file holds the inverse transform. */
  lemma {:induction false} WrittenPoseInverts(fp: Rounding, points: seq<ReconPoint>, i: ReconImage, ks: seq<Keypoint>,
                                            n: DPose, v: Vec3)
    requires LosslessPose(fp, i.pose) && Unit(RealPose(i.pose).rotation)
    requires PoseAt(Encode(ImageFields(fp, points, i, ks)), n)
    ensures FinitePose(n) && TransformPoint(PoseTransform(n), TransformPoint(PoseTransform(i.pose), v)) == v
  {
    ImageLayout(fp, points, i, ks);
    ConvertPoseUndoes(fp, i.pose, v);
    SamePose(Encode(ImageFields(fp, points, i, ks)), n, ConvertPose(fp, i.pose));
  }

  /** The pose read from an image record is the inverse transform of the one that stands there. */
  lemma {:induction false} ReadPoseInverts(fp: Rounding, frames: map<seq<byte>, string>, i: SparseImage, v: Vec3)
    requires LosslessPose(fp, i.pose) && Unit(RealPose(i.pose).rotation)
    ensures var r := ToReconImage(fp, frames, i).pose;
            FinitePose(r) && TransformPoint(PoseTransform(r), TransformPoint(PoseTransform(i.pose), v)) == v
  {
    ConvertPoseUndoes(fp, i.pose, v);
  }
}
