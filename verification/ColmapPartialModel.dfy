/** What is left behind when WriteColmapModel fails after it has begun to write: the promise
    that no file is touched is broken, but no reader takes the remains for a model. */
module ColmapPartialModel {
  import opened Wrappers
  import opened Collections
  import opened LittleEndian
  import opened Binary64
  import opened ColmapFormat
  import opened ColmapModel
  import opened ColmapRoundTrip
  import opened ColmapRecordOrder
  import opened ColmapWriter

  // ----------------------------------------------------------------- which inputs fail

  predicate KeypointFinite(k: Keypoint) {
    IsFinite(k.x) && IsFinite(k.y)
  }

  predicate IntrinsicsFinite(k: Intrinsics) {
    IsFinite(k.fx) && IsFinite(k.fy) && IsFinite(k.cx) && IsFinite(k.cy)
  }

  ghost predicate ImageNumbersFinite(fp: Rounding, i: ReconImage, ks: seq<Keypoint>) {
    FinitePose(ConvertPose(fp, i.pose)) && forall k :: k in ks ==> KeypointFinite(k)
  }

  predicate PointNumbersFinite(p: ReconPoint) {
    FiniteVec(p.xyz) && IsFinite(p.error)
  }

  /** The numbers the checks do not look at: intrinsics, poses, infinite keypoints, points
      and their errors. */
  ghost predicate NumbersFinite(fp: Rounding, rec: Reconstruction, kps: Keypoints) {
    && (forall c :: c in rec.cameras ==> IntrinsicsFinite(c.intrinsics))
    && (forall i :: i in rec.images && i.imageId in kps ==> ImageNumbersFinite(fp, i, kps[i.imageId]))
    && (forall p :: p in rec.points ==> PointNumbersFinite(p))
  }

  lemma WritableConcat(a: seq<Field>, b: seq<Field>)
    ensures AllWritable(a + b) <==> AllWritable(a) && AllWritable(b)
  {
    forall f | f in a || f in b
      ensures f in a + b
    {
    }
  }

  lemma {:induction false} WritableRecords<T>(xs: seq<T>, fields: T -> seq<Field>, n: nat)
    requires n <= |xs|
    ensures AllWritable(Records(xs, fields, n)) <==> forall i :: 0 <= i < n ==> AllWritable(fields(xs[i]))
  {
    if n > 0 {
      WritableRecords(xs, fields, n - 1);
      WritableConcat(Records(xs, fields, n - 1), fields(xs[n - 1]));
    }
  }

  lemma WritableFile<T>(xs: seq<T>, key: T -> int, fields: T -> seq<Field>)
    ensures AllWritable(FileFields(SortBy(xs, key), fields)) <==> forall x :: x in xs ==> AllWritable(fields(x))
  {
    var sorted := SortBy(xs, key);
    SortByCorrect(xs, key);
    WritableRecords(sorted, fields, |sorted|);
    WritableConcat([FU64(Count64(|sorted|))], Records(sorted, fields, |sorted|));
    forall x
      ensures x in xs <==> x in sorted
    {
      SameElementsMember(xs, sorted, x);
    }
  }

  lemma WritableDoubles(ds: seq<Double>)
    ensures AllWritable(DoubleFields(ds)) <==> forall i :: 0 <= i < |ds| ==> IsFinite(ds[i])
  {
    forall i | 0 <= i < |ds|
      ensures DoubleFields(ds)[i] in DoubleFields(ds)
    {
    }
  }

  lemma WritableCamera(c: ReconCamera)
    requires CameraFine(c)
    ensures AllWritable(CameraRowFields(c)) <==> IntrinsicsFinite(c.intrinsics)
  {
    var row := CameraRecord(c).value;
    var head := [FU32(c.cameraId), FU32(Unsigned32(row.modelId)), FU64(Unsigned64(c.width)),
                 FU64(Unsigned64(c.height))];
    WritableConcat(head, DoubleFields(row.params));
    WritableDoubles(row.params);
    var k := c.intrinsics;
    assert row.params == [k.fx, k.fy, k.cx, k.cy] + c.distortion;
    FourFirst(k.fx, k.fy, k.cx, k.cy, c.distortion);
  }

  lemma FourFirst(a: Double, b: Double, c: Double, d: Double, rest: seq<Double>)
    requires forall i :: 0 <= i < |rest| ==> IsFinite(rest[i])
    ensures (forall i :: 0 <= i < |[a, b, c, d] + rest| ==> IsFinite(([a, b, c, d] + rest)[i]))
            <==> IsFinite(a) && IsFinite(b) && IsFinite(c) && IsFinite(d)
  {
    var all := [a, b, c, d] + rest;
    assert all[0] == a && all[1] == b && all[2] == c && all[3] == d;
  }

  lemma {:induction false} WritableKeypoints(points: seq<ReconPoint>, id: u32, ks: seq<Keypoint>, n: nat)
    requires n <= |ks|
    ensures AllWritable(KeypointFields(points, id, ks, n)) <==> forall i :: 0 <= i < n ==> KeypointFinite(ks[i])
  {
    if n > 0 {
      WritableKeypoints(points, id, ks, n - 1);
      var last := [FDouble(ks[n - 1].x), FDouble(ks[n - 1].y), FU64(ObservedPoint(points, id, Count32(n - 1)))];
      WritableConcat(KeypointFields(points, id, ks, n - 1), last);
      assert FDouble(ks[n - 1].x) in last && FDouble(ks[n - 1].y) in last;
    }
  }

  lemma WritableImage(fp: Rounding, points: seq<ReconPoint>, i: ReconImage, ks: seq<Keypoint>)
    ensures AllWritable(ImageFields(fp, points, i, ks)) <==> ImageNumbersFinite(fp, i, ks)
  {
    WritablePosed(ConvertPose(fp, i.pose), points, i, ks);
  }

  lemma WritablePosed(c: DPose, points: seq<ReconPoint>, i: ReconImage, ks: seq<Keypoint>)
    ensures AllWritable(PosedFields(c, points, i, ks)) <==> FinitePose(c) && forall k :: k in ks ==> KeypointFinite(k)
  {
    var q := [c.rotation.w, c.rotation.x, c.rotation.y, c.rotation.z];
    var t := [c.translation.x, c.translation.y, c.translation.z];
    var head := [FU32(i.cameraId), FU32(Count32(|i.name|)), FText(i.name), FU64(Count64(|ks|))];
    var body := KeypointFields(points, i.imageId, ks, |ks|);
    WritableConcat([FU32(i.imageId)], DoubleFields(q));
    WritableConcat([FU32(i.imageId)] + DoubleFields(q), DoubleFields(t));
    WritableConcat([FU32(i.imageId)] + DoubleFields(q) + DoubleFields(t), head);
    WritableConcat([FU32(i.imageId)] + DoubleFields(q) + DoubleFields(t) + head, body);
    WritableDoubles(q);
    WritableDoubles(t);
    WritableKeypoints(points, i.imageId, ks, |ks|);
    FourFirst(q[0], q[1], q[2], q[3], []);
    assert q + [] == q;
    assert t[0] == c.translation.x && t[1] == c.translation.y && t[2] == c.translation.z;
  }

  lemma WritablePoint(p: ReconPoint)
    ensures AllWritable(PointFields(p)) <==> PointNumbersFinite(p)
  {
    var xyz := [p.xyz.x, p.xyz.y, p.xyz.z];
    var head := [FByte(p.color.r), FByte(p.color.g), FByte(p.color.b), FDouble(p.error)];
    var n := [FU64(Count64(|p.track|))];
    var track := Records(p.track, TrackElementFields, |p.track|);
    WritableConcat([FU64(p.point3dId)], DoubleFields(xyz));
    WritableConcat([FU64(p.point3dId)] + DoubleFields(xyz), head);
    WritableConcat([FU64(p.point3dId)] + DoubleFields(xyz) + head, n);
    WritableConcat([FU64(p.point3dId)] + DoubleFields(xyz) + head + n, track);
    WritableDoubles(xyz);
    WritableRecords(p.track, TrackElementFields, |p.track|);
    assert head[3] in head;
    assert xyz[0] == p.xyz.x && xyz[1] == p.xyz.y && xyz[2] == p.xyz.z;
  }

  /** The writes that fail after the checks have passed, in terms of the input. */
  lemma FailsMidway(fp: Rounding, rec: Reconstruction, kps: Keypoints)
    requires Accepts(rec, kps)
    ensures AllFinite(fp, rec, kps) <==> NumbersFinite(fp, rec, kps)
  {
    WritableFile(rec.cameras, CameraId, CameraRowFields);
    WritableFile(rec.images, ImageId, ImageRowFields(fp, rec.points, kps));
    WritableFile(rec.points, PointId, PointFields);
    forall c | c in rec.cameras
      ensures AllWritable(CameraRowFields(c)) <==> IntrinsicsFinite(c.intrinsics)
    {
      WritableCamera(c);
    }
    forall i | i in rec.images
      ensures i.imageId in kps
      ensures AllWritable(ImageRowFields(fp, rec.points, kps)(i)) <==> ImageNumbersFinite(fp, i, kps[i.imageId])
    {
      assert ImageFine(i, kps);
      WritableImage(fp, rec.points, i, kps[i.imageId]);
    }
    forall p | p in rec.points
      ensures AllWritable(PointFields(p)) <==> PointNumbersFinite(p)
    {
      WritablePoint(p);
    }
  }

  /** One camera with an infinite focal length passes every check and fails midway. */
  lemma InfiniteFocalLength(fp: Rounding) returns (rec: Reconstruction, kps: Keypoints)
    ensures Accepts(rec, kps) && !AllFinite(fp, rec, kps)
    ensures CutOff(CamerasFile(rec)) == Some(Encode([FU64(1), FU32(1), FU32(1), FU64(640), FU64(480)]))
  {
    var cam := ReconCamera(1, 640, 480, "pinhole", Intrinsics(INFINITY, 0, 0, 0), "none", [], "");
    var pose := DPose(DQuat(0, 0, 0, 0), DVec(0, 0, 0));
    var img := ReconImage(1, 1, "", [65], pose, true);
    rec := Reconstruction([cam], [img], []);
    kps := map[1 := [Keypoint(0, 0)]];
    assert CameraRecord(cam) == Ok(RowCamera(1, [INFINITY, 0, 0, 0]));
    assert CameraFine(cam) && !IntrinsicsFinite(cam.intrinsics);
    assert ImageFine(img, kps);
    assert cam in rec.cameras;
    FailsMidway(fp, rec, kps);
    CutOffOneCamera(cam, RowCamera(1, [INFINITY, 0, 0, 0]));
  }

  lemma CutOffOneCamera(cam: ReconCamera, row: RowCamera)
    requires CameraRecord(cam) == Ok(row) && |row.params| > 0 && !IsFinite(row.params[0])
    requires row.modelId >= 0 && cam.width >= 0 && cam.height >= 0
    ensures UpToRefused(FileFields(SortBy([cam], CameraId), CameraRowFields))
            == [FU64(1), FU32(cam.cameraId), FU32(row.modelId), FU64(cam.width), FU64(cam.height)]
  {
    var head := [FU64(1), FU32(cam.cameraId), FU32(row.modelId), FU64(cam.width), FU64(cam.height)];
    var rest := DoubleFields(row.params);
    assert SortBy([cam], CameraId) == [cam] by {
      assert [cam][1..] == [];
    }
    assert Records([cam], CameraRowFields, 1) == Records([cam], CameraRowFields, 0) + CameraFields(cam, row);
    assert FileFields([cam], CameraRowFields) == head + rest;
    CutAt(head, rest);
  }

  /** A cut-off list stops right before the first refused field. */
  lemma {:induction false} CutAt(head: seq<Field>, rest: seq<Field>)
    requires AllWritable(head) && rest != [] && !Writable(rest[0])
    ensures UpToRefused(head + rest) == head
  {
    if head == [] {
      assert head + rest == rest;
    } else {
      assert head[0] in head;
      CutAt(head[1..], rest);
      assert (head + rest)[1..] == head[1..] + rest;
    }
  }

  // -------------------------------------------------------------- what a reader makes of it

  lemma {:induction false} CutOffLosesBytes(fs: seq<Field>) returns (lost: seq<byte>)
    requires !AllWritable(fs)
    ensures lost != [] && Encode(fs) == Encode(UpToRefused(fs)) + lost
  {
    if Writable(fs[0]) {
      var rest := fs[1..];
      assert fs == [fs[0]] + rest;
      WritableConcat([fs[0]], rest);
      lost := CutOffLosesBytes(rest);
      EncodeCons(fs[0], rest);
      EncodeCons(fs[0], UpToRefused(rest));
      Regroup(FieldBytes(fs[0]), Encode(UpToRefused(rest)), lost);
    } else {
      lost := Encode(fs);
      RefusedHasBytes(fs);
    }
  }

  lemma RefusedHasBytes(fs: seq<Field>)
    requires fs != [] && !Writable(fs[0])
    ensures Encode(fs) != [] && UpToRefused(fs) == []
  {
    assert fs == [fs[0]] + fs[1..];
    EncodeCons(fs[0], fs[1..]);
  }

  /** The same bytes read as equally many records leave the same rest. */
  lemma SameRest<T>(p: seq<byte> -> Parsed<T>, chunks: seq<seq<byte>>, vs: seq<T>, others: seq<seq<byte>>, ws: seq<T>,
                    rest: seq<byte>)
    requires AreRecords(p, chunks, vs) && AreRecords(p, others, ws) && |vs| == |ws|
    requires Join(others) + rest == Join(chunks)
    ensures rest == []
  {
    ParseManyRecords(p, others, ws, rest);
    ParseManyRecords(p, chunks, vs, []);
    assert Join(chunks) + [] == Join(chunks);
  }

  lemma SameCount(n: nat, m: nat)
    requires n < 0x1_0000_0000_0000_0000 && m < 0x1_0000_0000_0000_0000 && Bytes(n, 8) == Bytes(m, 8)
    ensures n == m
  {
    PowerValues();
    NumberOfBytes(n, 8);
    NumberOfBytes(m, 8);
  }

  /** No proper prefix of a count and that many records parses. */
  lemma TruncationRejected<T>(p: seq<byte> -> Parsed<T>, chunks: seq<seq<byte>>, vs: seq<T>, cut: seq<byte>,
                              lost: seq<byte>)
    requires Local(p) && AreRecords(p, chunks, vs) && |vs| < 0x1_0000_0000_0000_0000
    requires cut + lost == Bytes(|vs|, 8) + Join(chunks) && lost != []
    ensures ParseFile(p, cut) == None
  {
    if ParseFile(p, cut).Some? {
      var ws := ParseFile(p, cut).value;
      var others, junk := FileDecomposes(p, cut, ws);
      SameStart(Bytes(|ws|, 8), Join(others), junk, lost, Bytes(|vs|, 8), Join(chunks));
      SameCount(|ws|, |vs|);
      SameRest(p, chunks, vs, others, ws, junk + lost);
      assert false;
    }
  }

  lemma SameStart(a: seq<byte>, b: seq<byte>, c: seq<byte>, l: seq<byte>, d: seq<byte>, e: seq<byte>)
    requires (a + (b + c)) + l == d + e && |a| == |d|
    ensures a == d && b + (c + l) == e
    ensures l != [] ==> c + l != []
  {
    assert (a + (b + c)) + l == a + (b + (c + l));
    assert (a + (b + (c + l)))[..|a|] == a && (d + e)[..|a|] == d;
    assert (a + (b + (c + l)))[|a|..] == b + (c + l) && (d + e)[|a|..] == e;
  }

  lemma CutFileRejected<T, S>(p: seq<byte> -> Parsed<S>, xs: seq<T>, fields: T -> seq<Field>, vs: seq<S>)
    requires Local(p) && WrittenAs(p, xs, fields, vs) && !AllWritable(FileFields(xs, fields))
    ensures ParseFile(p, Encode(UpToRefused(FileFields(xs, fields)))) == None
  {
    var lost := CutOffLosesBytes(FileFields(xs, fields));
    var chunks := Chunks(xs, fields, |xs|);
    forall i | 0 <= i < |vs|
      ensures IsRecord(p, chunks[i], vs[i]) && chunks[i] != []
    {
      assert IsRecord(p, Encode(fields(xs[i])), vs[i]);
    }
    FileBytes(xs, fields, |xs|);
    TruncationRejected(p, chunks, vs, Encode(UpToRefused(FileFields(xs, fields))), lost);
  }

  /** Whatever older files lie beside it, the remains of a failed write never parse. */
  lemma PartialModelRejected(fp: Rounding, rec: Reconstruction, kps: Keypoints, cameras: seq<byte>, images: seq<byte>,
                             points: seq<byte>)
    requires Accepts(rec, kps) && WellSized(rec, kps) && !AllFinite(fp, rec, kps)
    requires Some(cameras) == CutOff(CamerasFile(rec))
    requires AllWritable(CamerasFile(rec)) ==> Some(images) == CutOff(ImagesFile(fp, rec, kps))
    requires AllWritable(CamerasFile(rec)) && AllWritable(ImagesFile(fp, rec, kps)) ==>
               Some(points) == CutOff(PointsFile(rec))
    ensures ParseModel(cameras, images, points) == None
  {
    ParsersAreLocal();
    if !AllWritable(CamerasFile(rec)) {
      var cs := CamerasReadBack(rec, kps);
      CutFileRejected(ParseCamera, SortBy(rec.cameras, CameraId), CameraRowFields, cs);
    } else if !AllWritable(ImagesFile(fp, rec, kps)) {
      var ims := ImagesReadBack(fp, rec, kps, map[]);
      CutFileRejected(ParseImage, SortBy(rec.images, ImageId), ImageRowFields(fp, rec.points, kps), ims);
    } else {
      var ps := PointsReadBack(rec, kps);
      CutFileRejected(ParsePoint, SortBy(rec.points, PointId), PointFields, ps);
    }
  }
}
