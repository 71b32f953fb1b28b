/** Writing a reconstruction as a native model and reading it back. */
module ColmapRoundTrip {
  import opened Wrappers
  import opened Collections
  import opened LittleEndian
  import opened Geometry
  import opened Binary64
  import opened ColmapFormat
  import opened ColmapModel

  // ----------------------------------------------------------------- one record each

  function NativeCamera(c: ReconCamera): SparseCamera
    requires CameraRecord(c).Ok?
  {
    var row := CameraRecord(c).value;
    var info := CAMERA_MODELS[row.modelId];
    SparseCamera(c.cameraId, info.name, info.intrinsicModel, row.modelId, c.width, c.height, row.params, c.intrinsics)
  }

  /** The three writable models agree with the reader's table. */
  lemma RowMatchesTable(c: ReconCamera, row: RowCamera, info: CameraModel)
    requires CameraFine(c) && CameraRecord(c) == Ok(row) && ModelInfo(row.modelId) == Some(info)
    ensures |row.params| == info.numParams && IntrinsicsOf(info, row.params) == c.intrinsics
    ensures NativeCamera(c) == SparseCamera(c.cameraId, info.name, info.intrinsicModel, row.modelId,
                                            c.width, c.height, row.params, c.intrinsics)
  {
  }

  lemma SignedTwice(v: i32, w: i64)
    ensures Signed32(Unsigned32(v)) == v && Signed64(Unsigned64(w)) == w
  {
  }

  lemma EncodeOne(f: Field)
    ensures Encode([f]) == FieldBytes(f)
  {
    EncodeSnoc([], f);
    assert [] + [f] == [f];
  }

  lemma EncodeCons(f: Field, fs: seq<Field>)
    ensures Encode([f] + fs) == FieldBytes(f) + Encode(fs)
  {
    EncodeConcat([f], fs);
    EncodeOne(f);
  }

  lemma CameraBytes(c: ReconCamera, row: RowCamera)
    ensures Encode(CameraFields(c, row))
         == Five(Bytes(c.cameraId, 4), Bytes(Unsigned32(row.modelId), 4), Bytes(Unsigned64(c.width), 8),
                 Bytes(Unsigned64(c.height), 8), Encode(DoubleFields(row.params)))
  {
    var d := DoubleFields(row.params);
    var f0, f1 := FU32(c.cameraId), FU32(Unsigned32(row.modelId));
    var f2, f3 := FU64(Unsigned64(c.width)), FU64(Unsigned64(c.height));
    EncodeCons(f3, d);
    EncodeCons(f2, [f3] + d);
    EncodeCons(f1, [f2] + ([f3] + d));
    EncodeCons(f0, [f1] + ([f2] + ([f3] + d)));
    assert CameraFields(c, row) == [f0] + ([f1] + ([f2] + ([f3] + d)));
  }

  lemma CameraParses(c: ReconCamera, tail: seq<byte>)
    requires CameraFine(c)
    ensures ParseCamera(Encode(CameraRowFields(c)) + tail) == Got(NativeCamera(c), tail)
  {
    var row := CameraRecord(c).value;
    var info := CAMERA_MODELS[row.modelId];
    RowMatchesTable(c, row, info);
    CameraBytes(c, row);
    U32Record(c.cameraId);
    U32Record(Unsigned32(row.modelId));
    U64Record(Unsigned64(c.width));
    U64Record(Unsigned64(c.height));
    TableSizes(row.modelId, info);
    SignedTwice(row.modelId, c.width);
    SignedTwice(row.modelId, c.height);
    forall t
      ensures ParseDoubles(info.numParams, Encode(DoubleFields(row.params)) + t) == Got(row.params, t)
    {
      DoublesRecord(row.params, t);
    }
    CameraReplays(Bytes(c.cameraId, 4), c.cameraId, Bytes(Unsigned32(row.modelId), 4), Unsigned32(row.modelId),
                  Bytes(Unsigned64(c.width), 8), Unsigned64(c.width), Bytes(Unsigned64(c.height), 8),
                  Unsigned64(c.height), Encode(DoubleFields(row.params)), info, row.params, tail);
  }

  lemma CameraConverts(c: ReconCamera)
    requires CameraFine(c)
    ensures ToReconCamera(NativeCamera(c)) == StripCamera(c)
  {
    var row := CameraRecord(c).value;
    assert ExtractDistortion(row.modelId, row.params) == c.distortion;
  }

  lemma StartsWithBytes(f: Field, fs: seq<Field>)
    requires f.FU32? || f.FU64?
    ensures Encode([f] + fs) != []
  {
    EncodeCons(f, fs);
  }

  lemma CameraIsRecord(c: ReconCamera)
    requires CameraFine(c)
    ensures IsRecord(ParseCamera, Encode(CameraRowFields(c)), NativeCamera(c)) && Encode(CameraRowFields(c)) != []
  {
    forall tail
      ensures ParseCamera(Encode(CameraRowFields(c)) + tail) == Got(NativeCamera(c), tail)
    {
      CameraParses(c, tail);
    }
    var fs := CameraRowFields(c);
    StartsWithBytes(fs[0], fs[1..]);
    assert [fs[0]] + fs[1..] == fs;
  }

  function NativeImage(fp: Rounding, i: ReconImage): SparseImage {
    SparseImage(i.imageId, i.cameraId, i.name, ConvertPose(fp, i.pose))
  }

  lemma {:induction false} KeypointFieldsSize(points: seq<ReconPoint>, id: u32, ks: seq<Keypoint>, n: nat)
    requires n <= |ks|
    ensures |Encode(KeypointFields(points, id, ks, n))| == 24 * n
  {
    if n > 0 {
      KeypointFieldsSize(points, id, ks, n - 1);
      var a := KeypointFields(points, id, ks, n - 1);
      var x, y, o := FDouble(ks[n - 1].x), FDouble(ks[n - 1].y), FU64(ObservedPoint(points, id, Count32(n - 1)));
      EncodeSnoc(a, x);
      EncodeSnoc(a + [x], y);
      EncodeSnoc(a + [x] + [y], o);
      assert a + [x] + [y] + [o] == a + [x, y, o];
    }
  }

  lemma EncodeFour(a: Field, b: Field, c: Field, d: Field)
    ensures Encode([a, b, c, d]) == FieldBytes(a) + (FieldBytes(b) + (FieldBytes(c) + FieldBytes(d)))
  {
    EncodeOne(d);
    EncodeCons(c, [d]);
    EncodeCons(b, [c] + [d]);
    EncodeCons(a, [b] + ([c] + [d]));
    assert [a, b, c, d] == [a] + ([b] + ([c] + [d]));
  }

  lemma LeftToFive(a: seq<byte>, b: seq<byte>, c: seq<byte>, d: seq<byte>, x: seq<byte>, y: seq<byte>, z: seq<byte>,
                   e: seq<byte>)
    ensures a + b + c + (d + (x + (y + z))) + e == Five(a, b, c, d, (x + y) + (z + e))
  {
    Regroup(x, y, z);
    Regroup(x + y, z, e);
    Regroup(d, x + (y + z), e);
    Regroup(a + b + c, d + (x + (y + z)), e);
    var rest := d + ((x + y) + (z + e));
    Regroup(a + b, c, rest);
    Regroup(a, b, c + rest);
  }

  lemma EncodeParts(a: seq<Field>, b: seq<Field>, c: seq<Field>, d: seq<Field>, e: seq<Field>)
    ensures Encode(a + b + c + d + e) == Encode(a) + Encode(b) + Encode(c) + Encode(d) + Encode(e)
  {
    EncodeConcat(a + b + c + d, e);
    EncodeConcat(a + b + c, d);
    EncodeConcat(a + b, c);
    EncodeConcat(a, b);
  }

  lemma ImageHeaderBytes(cameraId: u32, len: u32, name: seq<byte>, n: u64)
    ensures Encode([FU32(cameraId), FU32(len), FText(name), FU64(n)])
         == Bytes(cameraId, 4) + (Bytes(len, 4) + (name + Bytes(n, 8)))
  {
    EncodeFour(FU32(cameraId), FU32(len), FText(name), FU64(n));
  }

  lemma ImageBytes(id: u32, q: seq<Field>, t: seq<Field>, cameraId: u32, len: u32, name: seq<byte>, n: u64,
                   body: seq<Field>)
    ensures Encode([FU32(id)] + q + t + [FU32(cameraId), FU32(len), FText(name), FU64(n)] + body)
         == Five(Bytes(id, 4), Encode(q), Encode(t), Bytes(cameraId, 4),
                 (Bytes(len, 4) + name) + (Bytes(n, 8) + Encode(body)))
  {
    EncodeParts([FU32(id)], q, t, [FU32(cameraId), FU32(len), FText(name), FU64(n)], body);
    EncodeOne(FU32(id));
    ImageHeaderBytes(cameraId, len, name, n);
    LeftToFive(Bytes(id, 4), Encode(q), Encode(t), Bytes(cameraId, 4), Bytes(len, 4), name, Bytes(n, 8), Encode(body));
  }

  lemma NameAndPointsRecord(name: seq<byte>, n: u64, body: seq<byte>)
    requires |name| < 0x1_0000_0000 && |body| == 24 * n
    ensures IsRecord(ParseNameAndPoints, (Bytes(|name|, 4) + name) + (Bytes(n, 8) + body), name)
  {
    TextRecord(name);
    U64Record(n);
    forall tail
      ensures ParseNameAndPoints(((Bytes(|name|, 4) + name) + (Bytes(n, 8) + body)) + tail) == Got(name, tail)
    {
      Regroup(Bytes(|name|, 4) + name, Bytes(n, 8) + body, tail);
      Regroup(Bytes(n, 8), body, tail);
      SkipAll(body, n, tail);
    }
  }

  lemma PosedParses(n: DPose, points: seq<ReconPoint>, i: ReconImage, ks: seq<Keypoint>, tail: seq<byte>)
    requires |i.name| < 0x1_0000_0000 && |ks| < 0x1_0000_0000_0000_0000
    ensures ParseImage(Encode(PosedFields(n, points, i, ks)) + tail)
            == Got(SparseImage(i.imageId, i.cameraId, i.name, n), tail)
  {
    var q := [n.rotation.w, n.rotation.x, n.rotation.y, n.rotation.z];
    var t := [n.translation.x, n.translation.y, n.translation.z];
    var body := KeypointFields(points, i.imageId, ks, |ks|);
    KeypointFieldsSize(points, i.imageId, ks, |ks|);
    assert Count32(|i.name|) == |i.name| && Count64(|ks|) == |ks|;
    ImageBytes(i.imageId, DoubleFields(q), DoubleFields(t), i.cameraId, |i.name|, i.name, |ks|, body);
    U32Record(i.imageId);
    U32Record(i.cameraId);
    NameAndPointsRecord(i.name, |ks|, Encode(body));
    forall u
      ensures ParseDoubles(4, Encode(DoubleFields(q)) + u) == Got(q, u)
      ensures ParseDoubles(3, Encode(DoubleFields(t)) + u) == Got(t, u)
    {
      DoublesRecord(q, u);
      DoublesRecord(t, u);
    }
    ImageReplays(Bytes(i.imageId, 4), i.imageId, Encode(DoubleFields(q)), q, Encode(DoubleFields(t)), t,
                 Bytes(i.cameraId, 4), i.cameraId, (Bytes(|i.name|, 4) + i.name) + (Bytes(|ks|, 8) + Encode(body)),
                 i.name, tail);
  }

  lemma ImageIsRecord(fp: Rounding, points: seq<ReconPoint>, i: ReconImage, ks: seq<Keypoint>)
    requires |i.name| < 0x1_0000_0000 && |ks| < 0x1_0000_0000_0000_0000
    ensures IsRecord(ParseImage, Encode(ImageFields(fp, points, i, ks)), NativeImage(fp, i))
    ensures Encode(ImageFields(fp, points, i, ks)) != []
  {
    forall tail
      ensures ParseImage(Encode(ImageFields(fp, points, i, ks)) + tail) == Got(NativeImage(fp, i), tail)
    {
      PosedParses(ConvertPose(fp, i.pose), points, i, ks, tail);
    }
    var fs := ImageFields(fp, points, i, ks);
    StartsWithBytes(fs[0], fs[1..]);
    assert [fs[0]] + fs[1..] == fs;
  }

  // -------------------------------------------------------------------- lists of records

  function Chunks<T>(xs: seq<T>, fields: T -> seq<Field>, n: nat): (r: seq<seq<byte>>)
    requires n <= |xs|
    ensures |r| == n && forall i :: 0 <= i < n ==> r[i] == Encode(fields(xs[i]))
  {
    seq(n, i requires 0 <= i < n => Encode(fields(xs[i])))
  }

  lemma {:induction false} JoinSnoc(a: seq<seq<byte>>, c: seq<byte>)
    ensures Join(a + [c]) == Join(a) + c
  {
    if a == [] {
      assert [c][1..] == [];
      assert Join([c]) == c + Join([]);
      assert a + [c] == [c];
    } else {
      JoinSnoc(a[1..], c);
      assert (a + [c])[1..] == a[1..] + [c];
    }
  }

  lemma {:induction false} EncodeRecords<T>(xs: seq<T>, fields: T -> seq<Field>, n: nat)
    requires n <= |xs|
    ensures Encode(Records(xs, fields, n)) == Join(Chunks(xs, fields, n))
  {
    if n > 0 {
      EncodeRecords(xs, fields, n - 1);
      EncodeConcat(Records(xs, fields, n - 1), fields(xs[n - 1]));
      JoinSnoc(Chunks(xs, fields, n - 1), Encode(fields(xs[n - 1])));
      assert Chunks(xs, fields, n) == Chunks(xs, fields, n - 1) + [Encode(fields(xs[n - 1]))];
    }
  }

  lemma FileBytes<T>(xs: seq<T>, fields: T -> seq<Field>, n: u64)
    requires |xs| == n
    ensures Encode(FileFields(xs, fields)) == FieldBytes(FU64(n)) + Join(Chunks(xs, fields, |xs|))
  {
    EncodeRecords(xs, fields, |xs|);
    EncodeConcat([FU64(n)], Records(xs, fields, |xs|));
    EncodeOne(FU64(n));
    assert Count64(|xs|) == n;
  }

  /** The bytes written for each entry are one record, and parse to the given value. */
  ghost predicate WrittenAs<T, S>(p: seq<byte> -> Parsed<S>, xs: seq<T>, fields: T -> seq<Field>, vs: seq<S>) {
    && |xs| == |vs| < 0x1_0000_0000_0000_0000
    && forall i :: 0 <= i < |vs| ==> IsRecord(p, Encode(fields(xs[i])), vs[i]) && Encode(fields(xs[i])) != []
  }

  /** A written file reads back as its records. */
  lemma FileReadsBack<T, S>(p: seq<byte> -> Parsed<S>, xs: seq<T>, fields: T -> seq<Field>, vs: seq<S>)
    requires WrittenAs(p, xs, fields, vs)
    ensures ParseFile(p, Encode(FileFields(xs, fields))) == Some(vs)
  {
    var chunks := Chunks(xs, fields, |xs|);
    forall i | 0 <= i < |vs|
      ensures IsRecord(p, chunks[i], vs[i]) && chunks[i] != []
    {
      assert IsRecord(p, Encode(fields(xs[i])), vs[i]);
    }
    ParseFileRecords(p, chunks, vs, []);
    assert Join(chunks) + [] == Join(chunks);
    FileBytes(xs, fields, |xs|);
  }

  // ------------------------------------------------------------------------------ points

  function NativeTrack(te: TrackElement): SparseTrack {
    SparseTrack(te.imageId, Unsigned32(te.point2dIdx))
  }

  function NativePoint(p: ReconPoint): SparsePoint {
    SparsePoint(p.point3dId, p.xyz, p.color, p.error,
                seq(|p.track|, i requires 0 <= i < |p.track| => NativeTrack(p.track[i])))
  }

  lemma TrackIsRecord(te: TrackElement)
    ensures IsRecord(ParseTrack, Encode(TrackElementFields(te)), NativeTrack(te))
    ensures Encode(TrackElementFields(te)) != []
  {
    var f, g := FU32(te.imageId), FU32(Unsigned32(te.point2dIdx));
    EncodeOne(g);
    EncodeCons(f, [g]);
    assert TrackElementFields(te) == [f] + [g];
    U32Record(f.n);
    U32Record(g.n);
    forall tail
      ensures ParseTrack(Encode(TrackElementFields(te)) + tail) == Got(NativeTrack(te), tail)
    {
      Regroup(Bytes(f.n, 4), Bytes(g.n, 4), tail);
    }
  }

  lemma TrackReadsBack(track: seq<TrackElement>, native: seq<SparseTrack>, tail: seq<byte>)
    requires |native| == |track| && forall i :: 0 <= i < |track| ==> native[i] == NativeTrack(track[i])
    ensures ParseMany(ParseTrack, |track|, Encode(Records(track, TrackElementFields, |track|)) + tail)
            == Got(native, tail)
  {
    var chunks := Chunks(track, TrackElementFields, |track|);
    forall i | 0 <= i < |track|
      ensures IsRecord(ParseTrack, chunks[i], native[i]) && chunks[i] != []
    {
      TrackIsRecord(track[i]);
    }
    EncodeRecords(track, TrackElementFields, |track|);
    ParseManyRecords(ParseTrack, chunks, native, tail);
  }

  lemma ColorRecord(c: Color)
    ensures IsRecord(ParseColor, [c.r] + ([c.g] + [c.b]), c)
  {
    forall tail
      ensures ParseColor(([c.r] + ([c.g] + [c.b])) + tail) == Got(c, tail)
    {
      assert (([c.r] + ([c.g] + [c.b])) + tail)[1..][1..][1..] == tail;
    }
  }

  lemma LeftToFivePoint(a: seq<byte>, b: seq<byte>, r: seq<byte>, g: seq<byte>, l: seq<byte>, d: seq<byte>,
                        n: seq<byte>, e: seq<byte>)
    ensures a + b + (r + (g + (l + d))) + n + e == Five(a, b, r + (g + l), d, n + e)
  {
    Regroup(g, l, d);
    Regroup(r, g + l, d);
    var c := r + (g + l);
    Regroup(a + b + (c + d), n, e);
    Regroup(a + b, c + d, n + e);
    Regroup(c, d, n + e);
    Regroup(a, b, c + (d + (n + e)));
  }

  lemma PointBytes(p: ReconPoint, xyz: seq<Double>, n: u64, body: seq<Field>, fs: seq<Field>)
    requires fs == [FU64(p.point3dId)] + DoubleFields(xyz)
                   + [FByte(p.color.r), FByte(p.color.g), FByte(p.color.b), FDouble(p.error)] + [FU64(n)] + body
    ensures Encode(fs) == Five(Bytes(p.point3dId, 8), Encode(DoubleFields(xyz)),
                               [p.color.r] + ([p.color.g] + [p.color.b]),
                               Bytes(p.error, 8), Bytes(n, 8) + Encode(body))
  {
    var a, b := [FU64(p.point3dId)], DoubleFields(xyz);
    var f1, f2, f3, f4 := FByte(p.color.r), FByte(p.color.g), FByte(p.color.b), FDouble(p.error);
    EncodeConcat(a + b + [f1, f2, f3, f4] + [FU64(n)], body);
    EncodeConcat(a + b + [f1, f2, f3, f4], [FU64(n)]);
    EncodeConcat(a + b, [f1, f2, f3, f4]);
    EncodeConcat(a, b);
    EncodeOne(FU64(p.point3dId));
    EncodeOne(FU64(n));
    EncodeFour(f1, f2, f3, f4);
    LeftToFivePoint(Bytes(p.point3dId, 8), Encode(b), [p.color.r], [p.color.g], [p.color.b], Bytes(p.error, 8),
                    Bytes(n, 8), Encode(body));
  }

  lemma TracksRecord(track: seq<TrackElement>, native: seq<SparseTrack>)
    requires |track| < 0x1_0000_0000_0000_0000
    requires |native| == |track| && forall i :: 0 <= i < |track| ==> native[i] == NativeTrack(track[i])
    ensures IsRecord(ParseTracks, Bytes(|track|, 8) + Encode(Records(track, TrackElementFields, |track|)), native)
  {
    var body := Encode(Records(track, TrackElementFields, |track|));
    U64Record(|track|);
    forall tail
      ensures ParseTracks((Bytes(|track|, 8) + body) + tail) == Got(native, tail)
    {
      Regroup(Bytes(|track|, 8), body, tail);
      TrackReadsBack(track, native, tail);
    }
  }

  lemma PointParses(p: ReconPoint, tail: seq<byte>)
    requires |p.track| < 0x1_0000_0000_0000_0000
    ensures ParsePoint(Encode(PointFields(p)) + tail) == Got(NativePoint(p), tail)
  {
    var xyz, native := [p.xyz.x, p.xyz.y, p.xyz.z], NativePoint(p).track;
    var body := Records(p.track, TrackElementFields, |p.track|);
    PointBytes(p, xyz, |p.track|, body, PointFields(p));
    U64Record(p.point3dId);
    U64Record(p.error);
    ColorRecord(p.color);
    TracksRecord(p.track, native);
    forall u
      ensures ParseDoubles(3, Encode(DoubleFields(xyz)) + u) == Got(xyz, u)
    {
      DoublesRecord(xyz, u);
    }
    PointReplays(Bytes(p.point3dId, 8), p.point3dId, Encode(DoubleFields(xyz)), xyz,
                 [p.color.r] + ([p.color.g] + [p.color.b]), p.color, Bytes(p.error, 8), p.error,
                 Bytes(|p.track|, 8) + Encode(body), native, tail);
  }

  lemma PointIsRecord(p: ReconPoint)
    requires |p.track| < 0x1_0000_0000_0000_0000
    ensures IsRecord(ParsePoint, Encode(PointFields(p)), NativePoint(p)) && Encode(PointFields(p)) != []
  {
    forall tail
      ensures ParsePoint(Encode(PointFields(p)) + tail) == Got(NativePoint(p), tail)
    {
      PointParses(p, tail);
    }
    var fs := PointFields(p);
    StartsWithBytes(fs[0], fs[1..]);
    assert [fs[0]] + fs[1..] == fs;
  }

  lemma PointConverts(p: ReconPoint)
    ensures ToReconPoint(NativePoint(p)) == p
  {
    assert ToReconPoint(NativePoint(p)).track == p.track;
  }

  // ------------------------------------------------------------------------ the theorem

  /** Sizes the 32- and 64-bit counts of the format can hold. */
  ghost predicate WellSized(rec: Reconstruction, kps: Keypoints) {
    && |rec.cameras| < 0x1_0000_0000_0000_0000 && |rec.images| < 0x1_0000_0000_0000_0000
    && |rec.points| < 0x1_0000_0000_0000_0000
    && (forall i :: i in rec.images ==> |i.name| < 0x1_0000_0000)
    && (forall id :: id in kps ==> |kps[id]| < 0x1_0000_0000_0000_0000)
    && (forall p :: p in rec.points ==> |p.track| < 0x1_0000_0000_0000_0000)
  }

  /** The pose after the conversion to COLMAP's form and back. */
  function PoseTwice(fp: Rounding, p: DPose): DPose {
    ConvertPose(fp, ConvertPose(fp, p))
  }

  /** A pose whose conversion is exact, with a unit rotation or a translation along its axis. */
  ghost predicate RigidPose(fp: Rounding, p: DPose) {
    && Exact(fp, p)
    && var r := RealPose(p);
       Unit(r.rotation) || Cross(Axis(r.rotation), r.translation) == ZERO3
  }

  /** A list that was sorted by id is still sorted after reading, so sorting changes nothing. */
  lemma ReadListSorted<S, T>(xs: seq<S>, key: S -> int, vs: seq<T>, key': T -> int)
    requires SortedBy(xs, key) && |vs| == |xs|
    requires forall i :: 0 <= i < |xs| ==> key'(vs[i]) == key(xs[i])
    ensures SortBy(vs, key') == vs
  {
    SortOfSorted(vs, key');
  }

  lemma SortedMember<T>(s: seq<T>, key: T -> int, i: nat)
    requires i < |SortBy(s, key)|
    ensures SortBy(s, key)[i] in s
  {
    SortByCorrect(s, key);
    SameElementsMember(SortBy(s, key), s, SortBy(s, key)[i]);
  }

  lemma SortedCamerasFine(rec: Reconstruction, kps: Keypoints, cs: seq<ReconCamera>)
    requires Accepts(rec, kps) && cs == SortBy(rec.cameras, CameraId)
    ensures forall i :: 0 <= i < |cs| ==> CameraFine(cs[i])
    ensures |cs| == |rec.cameras| && SortedBy(cs, CameraId)
  {
    SortByCorrect(rec.cameras, CameraId);
    forall i | 0 <= i < |cs|
      ensures CameraFine(cs[i])
    {
      SortedMember(rec.cameras, CameraId, i);
    }
  }

  lemma CameraListConverts(cs: seq<ReconCamera>, vs: seq<SparseCamera>)
    requires |cs| == |vs| && forall i :: 0 <= i < |vs| ==> CameraFine(cs[i]) && vs[i] == NativeCamera(cs[i])
    ensures ToReconCameras(vs) == StripCameras(cs)
  {
    forall i | 0 <= i < |vs|
      ensures ToReconCamera(vs[i]) == StripCamera(cs[i])
    {
      CameraConverts(cs[i]);
    }
  }

  lemma CameraListReads(cs: seq<ReconCamera>, vs: seq<SparseCamera>)
    requires |cs| == |vs| < 0x1_0000_0000_0000_0000
    requires forall i :: 0 <= i < |vs| ==> CameraFine(cs[i]) && vs[i] == NativeCamera(cs[i])
    ensures WrittenAs(ParseCamera, cs, CameraRowFields, vs)
    ensures ParseFile(ParseCamera, Encode(FileFields(cs, CameraRowFields))) == Some(vs)
  {
    forall i | 0 <= i < |vs|
      ensures IsRecord(ParseCamera, Encode(CameraRowFields(cs[i])), vs[i]) && Encode(CameraRowFields(cs[i])) != []
    {
      CameraIsRecord(cs[i]);
    }
    FileReadsBack(ParseCamera, cs, CameraRowFields, vs);
  }

  lemma CamerasReadBack(rec: Reconstruction, kps: Keypoints) returns (vs: seq<SparseCamera>)
    requires Accepts(rec, kps) && WellSized(rec, kps)
    ensures ParseFile(ParseCamera, Encode(CamerasFile(rec))) == Some(vs) && SortBy(vs, CameraKey) == vs
    ensures ToReconCameras(vs) == StripCameras(SortBy(rec.cameras, CameraId))
    ensures WrittenAs(ParseCamera, SortBy(rec.cameras, CameraId), CameraRowFields, vs)
  {
    var cs := SortBy(rec.cameras, CameraId);
    SortedCamerasFine(rec, kps, cs);
    vs := seq(|cs|, i requires 0 <= i < |cs| => NativeCamera(cs[i]));
    CameraListReads(cs, vs);
    ReadListSorted(cs, CameraId, vs, CameraKey);
    CameraListConverts(cs, vs);
  }

  lemma SortedImageReadsBack(fp: Rounding, rec: Reconstruction, kps: Keypoints, frames: map<seq<byte>, string>,
                             i: ReconImage, bytes: seq<byte>)
    requires Accepts(rec, kps) && WellSized(rec, kps) && i in rec.images
    requires bytes == Encode(ImageRowFields(fp, rec.points, kps)(i))
    ensures IsRecord(ParseImage, bytes, NativeImage(fp, i)) && bytes != []
    ensures ToReconImage(fp, frames, NativeImage(fp, i)) == StripImage(frames, i).(pose := PoseTwice(fp, i.pose))
  {
    assert ImageFine(i, kps);
    ImageIsRecord(fp, rec.points, i, kps[i.imageId]);
  }

  lemma ImagesWritten(fp: Rounding, rec: Reconstruction, kps: Keypoints, frames: map<seq<byte>, string>,
                      ims: seq<ReconImage>)
    returns (vs: seq<SparseImage>)
    requires Accepts(rec, kps) && WellSized(rec, kps) && ims == SortBy(rec.images, ImageId)
    ensures |vs| == |ims| && forall i :: 0 <= i < |ims| ==> vs[i] == NativeImage(fp, ims[i])
    ensures WrittenAs(ParseImage, ims, ImageRowFields(fp, rec.points, kps), vs)
    ensures SameUpToPose(fp, ToReconImages(fp, frames, vs), StripImages(frames, ims))
  {
    var fields := ImageRowFields(fp, rec.points, kps);
    SortByCorrect(rec.images, ImageId);
    vs := seq(|ims|, i requires 0 <= i < |ims| => NativeImage(fp, ims[i]));
    forall i | 0 <= i < |vs|
      ensures IsRecord(ParseImage, Encode(fields(ims[i])), vs[i]) && Encode(fields(ims[i])) != []
      ensures ToReconImage(fp, frames, vs[i]) == StripImage(frames, ims[i]).(pose := PoseTwice(fp, ims[i].pose))
    {
      SortedMember(rec.images, ImageId, i);
      SortedImageReadsBack(fp, rec, kps, frames, ims[i], Encode(fields(ims[i])));
    }
  }

  lemma ImagesReadBack(fp: Rounding, rec: Reconstruction, kps: Keypoints, frames: map<seq<byte>, string>)
    returns (vs: seq<SparseImage>)
    requires Accepts(rec, kps) && WellSized(rec, kps)
    ensures ParseFile(ParseImage, Encode(ImagesFile(fp, rec, kps))) == Some(vs) && SortBy(vs, ImageKey) == vs
    ensures SameUpToPose(fp, ToReconImages(fp, frames, vs), StripImages(frames, SortBy(rec.images, ImageId)))
    ensures WrittenAs(ParseImage, SortBy(rec.images, ImageId), ImageRowFields(fp, rec.points, kps), vs)
  {
    var ims := SortBy(rec.images, ImageId);
    SortByCorrect(rec.images, ImageId);
    vs := ImagesWritten(fp, rec, kps, frames, ims);
    FileReadsBack(ParseImage, ims, ImageRowFields(fp, rec.points, kps), vs);
    ReadListSorted(ims, ImageId, vs, ImageKey);
  }

  lemma PointListReads(ps: seq<ReconPoint>, vs: seq<SparsePoint>)
    requires |ps| == |vs| < 0x1_0000_0000_0000_0000
    requires forall i :: 0 <= i < |vs| ==> |ps[i].track| < 0x1_0000_0000_0000_0000 && vs[i] == NativePoint(ps[i])
    ensures WrittenAs(ParsePoint, ps, PointFields, vs)
    ensures ParseFile(ParsePoint, Encode(FileFields(ps, PointFields))) == Some(vs)
  {
    forall i | 0 <= i < |vs|
      ensures IsRecord(ParsePoint, Encode(PointFields(ps[i])), vs[i]) && Encode(PointFields(ps[i])) != []
    {
      PointIsRecord(ps[i]);
    }
    FileReadsBack(ParsePoint, ps, PointFields, vs);
  }

  lemma PointListConverts(ps: seq<ReconPoint>, vs: seq<SparsePoint>)
    requires |ps| == |vs| && forall i :: 0 <= i < |vs| ==> vs[i] == NativePoint(ps[i])
    ensures ToReconPoints(vs) == ps
  {
    forall i | 0 <= i < |vs|
      ensures ToReconPoint(vs[i]) == ps[i]
    {
      PointConverts(ps[i]);
    }
  }

  lemma SortedPointsSized(rec: Reconstruction, kps: Keypoints, ps: seq<ReconPoint>)
    requires WellSized(rec, kps) && ps == SortBy(rec.points, PointId)
    ensures forall i :: 0 <= i < |ps| ==> |ps[i].track| < 0x1_0000_0000_0000_0000
    ensures |ps| == |rec.points| && SortedBy(ps, PointId)
  {
    SortByCorrect(rec.points, PointId);
    forall i | 0 <= i < |ps|
      ensures |ps[i].track| < 0x1_0000_0000_0000_0000
    {
      SortedMember(rec.points, PointId, i);
    }
  }

  lemma PointsReadBack(rec: Reconstruction, kps: Keypoints) returns (vs: seq<SparsePoint>)
    requires Accepts(rec, kps) && WellSized(rec, kps)
    ensures ParseFile(ParsePoint, Encode(PointsFile(rec))) == Some(vs) && SortBy(vs, PointKey) == vs
    ensures ToReconPoints(vs) == SortBy(rec.points, PointId)
    ensures WrittenAs(ParsePoint, SortBy(rec.points, PointId), PointFields, vs)
  {
    var ps := SortBy(rec.points, PointId);
    SortedPointsSized(rec, kps, ps);
    vs := seq(|ps|, i requires 0 <= i < |ps| => NativePoint(ps[i]));
    PointListReads(ps, vs);
    ReadListSorted(ps, PointId, vs, PointKey);
    PointListConverts(ps, vs);
  }

  /** The same images in the same order, with each pose converted there and back. */
  ghost predicate SameUpToPose(fp: Rounding, read: seq<ReconImage>, written: seq<ReconImage>) {
    && |read| == |written|
    && forall i :: 0 <= i < |read| ==> read[i] == written[i].(pose := PoseTwice(fp, written[i].pose))
  }

  /** The three written files always parse. Converting the parsed model back gives the
      written cameras, images, names, points, errors and tracks, each list sorted by id; the
      poses are the written ones converted there and back, so the whole reconstruction
      returns exactly when every pose survives that. */
  lemma RoundTrip(fp: Rounding, rec: Reconstruction, kps: Keypoints, frames: map<seq<byte>, string>)
    returns (m: SparseModel, read: Reconstruction)
    requires Accepts(rec, kps) && WellSized(rec, kps)
    ensures ParseModel(Encode(CamerasFile(rec)), Encode(ImagesFile(fp, rec, kps)), Encode(PointsFile(rec))) == Some(m)
    ensures read == ToReconstruction(fp, frames, m)
    ensures read.cameras == Canonical(frames, rec).cameras && read.points == Canonical(frames, rec).points
    ensures SameUpToPose(fp, read.images, Canonical(frames, rec).images)
    ensures read == Canonical(frames, rec) <==> forall i :: i in rec.images ==> PoseTwice(fp, i.pose) == i.pose
  {
    var cs := CamerasReadBack(rec, kps);
    var ims := ImagesReadBack(fp, rec, kps, frames);
    var ps := PointsReadBack(rec, kps);
    m := SparseModel(cs, ims, ps);
    read := ToReconstruction(fp, frames, m);
    PosesDecide(fp, rec, frames, read.images);
  }

  lemma PosesDecide(fp: Rounding, rec: Reconstruction, frames: map<seq<byte>, string>, read: seq<ReconImage>)
    requires SameUpToPose(fp, read, StripImages(frames, SortBy(rec.images, ImageId)))
    ensures read == StripImages(frames, SortBy(rec.images, ImageId))
            <==> forall i :: i in rec.images ==> PoseTwice(fp, i.pose) == i.pose
  {
    var sorted := SortBy(rec.images, ImageId);
    var written := StripImages(frames, sorted);
    SortByCorrect(rec.images, ImageId);
    if read == written {
      forall i | i in rec.images
        ensures PoseTwice(fp, i.pose) == i.pose
      {
        SameElementsMember(rec.images, sorted, i);
        var k :| 0 <= k < |sorted| && sorted[k] == i;
        assert read[k] == written[k];
      }
    }
    if forall i :: i in rec.images ==> PoseTwice(fp, i.pose) == i.pose {
      forall k | 0 <= k < |read|
        ensures read[k] == written[k]
      {
        SortedMember(rec.images, ImageId, k);
        assert written[k].pose == sorted[k].pose;
      }
    }
  }

  /** The promised round trip: with unit rotations (or translations along the rotation axis)
      and no rounding loss, what is read back is what was written, bit for bit. */
  lemma RigidRoundTrip(fp: Rounding, rec: Reconstruction, kps: Keypoints, frames: map<seq<byte>, string>)
    returns (m: SparseModel)
    requires Accepts(rec, kps) && WellSized(rec, kps)
    requires forall i :: i in rec.images ==> RigidPose(fp, i.pose)
    ensures ParseModel(Encode(CamerasFile(rec)), Encode(ImagesFile(fp, rec, kps)), Encode(PointsFile(rec))) == Some(m)
    ensures ToReconstruction(fp, frames, m) == Canonical(frames, rec)
  {
    var read: Reconstruction;
    m, read := RoundTrip(fp, rec, kps, frames);
    forall i | i in rec.images
      ensures PoseTwice(fp, i.pose) == i.pose
    {
      assert RigidPose(fp, i.pose);
      DoublePoseRoundTrip(fp, i.pose);
    }
  }
}
