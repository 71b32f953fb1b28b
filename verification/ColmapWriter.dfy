/** WriteColmapModel as it runs: the checks over the reconstruction, then three files, one
    field at a time (adapters/colmap/colmap_model_writer.cpp). */
module ColmapWriter {
  import opened Wrappers
  import opened Collections
  import opened LittleEndian
  import opened Binary64
  import opened ColmapFormat
  import opened ColmapModel
  import opened ColmapValidation

  // -------------------------------------------------------------------- binary writer

  /** The fields before the first double that is refused. */
  function UpToRefused(fs: seq<Field>): seq<Field> {
    if fs == [] || !Writable(fs[0]) then [] else [fs[0]] + UpToRefused(fs[1..])
  }

  lemma {:induction false} UpToRefusedSnoc(fs: seq<Field>, f: Field)
    ensures UpToRefused(fs + [f]) == if AllWritable(fs + [f]) then fs + [f] else UpToRefused(fs)
    ensures AllWritable(fs + [f]) <==> AllWritable(fs) && Writable(f)
    ensures AllWritable(fs) ==> UpToRefused(fs) == fs
  {
    assert f in fs + [f];
    if fs == [] {
      assert (fs + [f])[1..] == [];
    } else {
      UpToRefusedSnoc(fs[1..], f);
      assert (fs + [f])[1..] == fs[1..] + [f];
      assert [fs[0]] + fs[1..] == fs;
    }
  }

  lemma OneMoreDouble(was: seq<Field>, ds: seq<Double>, i: nat)
    requires i < |ds|
    ensures was + DoubleFields(ds)[..i] + [FDouble(ds[i])] == was + DoubleFields(ds)[..i + 1]
  {
  }

  /** ColmapBinWriter. Refusing a double is an exception in the program; here it is a flag,
      and nothing is written once it is set. */
  class BinWriter {
    var bytes: seq<byte>
    var failed: bool
    ghost var asked: seq<Field>

    ghost predicate Valid()
      reads this
    {
      && bytes == Encode(UpToRefused(asked))
      && failed == !AllWritable(asked)
    }

    constructor ()
      ensures Valid() && asked == []
    {
      bytes, failed, asked := [], false, [];
    }

    /** The low bytes of n, least significant first; nothing after a failure. */
    method Put(n: nat, k: nat, ghost f: Field)
      requires Valid() && FieldBytes(f) == Bytes(n, k) && Writable(f)
      modifies this
      ensures Valid() && asked == old(asked) + [f]
    {
      Grow(asked, f);
      asked := asked + [f];
      if failed {
        return;
      }
      var rest := n;
      for i := 0 to k
        invariant bytes + Bytes(rest, k - i) == old(bytes) + Bytes(n, k)
        invariant failed == old(failed) && asked == old(asked) + [f]
      {
        assert bytes + [rest % 0x100] + Bytes(rest / 0x100, k - i - 1) == bytes + Bytes(rest, k - i);
        bytes := bytes + [rest % 0x100];
        rest := rest / 0x100;
      }
      assert bytes + [] == bytes;
    }

    method U8(v: byte)
      requires Valid()
      modifies this
      ensures Valid() && asked == old(asked) + [FByte(v)]
    {
      assert Bytes(v, 1) == [v] + Bytes(0, 0);
      Put(v, 1, FByte(v));
    }

    method U32(v: u32)
      requires Valid()
      modifies this
      ensures Valid() && asked == old(asked) + [FU32(v)]
    {
      Put(v, 4, FU32(v));
    }

    method U64(v: u64)
      requires Valid()
      modifies this
      ensures Valid() && asked == old(asked) + [FU64(v)]
    {
      Put(v, 8, FU64(v));
    }

    method F64(v: Double)
      requires Valid()
      modifies this
      ensures Valid() && asked == old(asked) + [FDouble(v)]
    {
      if !IsFinite(v) {
        Grow(asked, FDouble(v));
        asked := asked + [FDouble(v)];
        failed := true;
        return;
      }
      Put(v, 8, FDouble(v));
    }

    method Doubles(ds: seq<Double>)
      requires Valid()
      modifies this
      ensures Valid() && asked == old(asked) + DoubleFields(ds)
    {
      ghost var was := asked;
      assert was == was + DoubleFields(ds)[..0];
      for i := 0 to |ds|
        invariant Valid() && asked == was + DoubleFields(ds)[..i]
      {
        OneMoreDouble(was, ds, i);
        F64(ds[i]);
      }
      assert DoubleFields(ds)[..|ds|] == DoubleFields(ds);
    }

    method Text(s: seq<byte>)
      requires Valid()
      modifies this
      ensures Valid() && asked == old(asked) + [FU32(Count32(|s|)), FText(s)]
    {
      U32(Count32(|s|));
      Grow(asked, FText(s));
      asked := asked + [FText(s)];
      if !failed {
        bytes := bytes + s;
      }
    }
  }

  /** What one more field does to the bytes written so far. */
  lemma Grow(asked: seq<Field>, f: Field)
    ensures AllWritable(asked + [f]) <==> AllWritable(asked) && Writable(f)
    ensures Encode(UpToRefused(asked + [f]))
            == Encode(UpToRefused(asked)) + if AllWritable(asked) && Writable(f) then FieldBytes(f) else []
  {
    UpToRefusedSnoc(asked, f);
    if AllWritable(asked) && Writable(f) {
      EncodeSnoc(asked, f);
    } else {
      assert Encode(UpToRefused(asked)) + [] == Encode(UpToRefused(asked));
    }
  }

  // ------------------------------------------------------- records in the order of ids

  lemma {:induction false} InsertCommutes<T>(x: T, s: seq<T>, key: T -> int)
    ensures InsertBy(key(x), Mapped(key, s), Same) == Mapped(key, InsertBy(x, s, key))
  {
    if s != [] && key(x) > key(s[0]) {
      InsertCommutes(x, s[1..], key);
      assert Mapped(key, s)[1..] == Mapped(key, s[1..]);
    }
  }

  /** Sorting the ids is reading the ids off the sorted records. */
  lemma {:induction false} SortCommutes<T>(s: seq<T>, key: T -> int)
    ensures SortBy(Mapped(key, s), Same) == Mapped(key, SortBy(s, key))
  {
    if s != [] {
      SortCommutes(s[1..], key);
      assert Mapped(key, s)[1..] == Mapped(key, s[1..]);
      InsertCommutes(s[0], SortBy(s[1..], key), key);
    }
  }

  method FindById<T>(xs: seq<T>, key: T -> int, id: int) returns (x: T)
    requires exists y :: y in xs && key(y) == id
    ensures x in xs && key(x) == id
  {
    var k := 0;
    while key(xs[k]) != id
      invariant k < |xs| && forall j :: 0 <= j < k ==> key(xs[j]) != id
      decreases |xs| - k
    {
      k := k + 1;
    }
    x := xs[k];
  }

  /** The k-th id is that of the k-th record. */
  ghost predicate ById<T>(ids: seq<int>, sorted: seq<T>, xs: seq<T>, key: T -> int) {
    && |ids| == |sorted|
    && DistinctBy(xs, key)
    && forall k :: 0 <= k < |ids| ==> sorted[k] in xs && key(sorted[k]) == ids[k]
  }

  method SortIds<T>(xs: seq<T>, key: T -> int) returns (ids: seq<int>)
    requires DistinctBy(xs, key)
    ensures ById(ids, SortBy(xs, key), xs, key)
  {
    ids := SortBy(Mapped(key, xs), Same);
    ghost var sorted := SortBy(xs, key);
    SortCommutes(xs, key);
    SortByCorrect(xs, key);
    forall k | 0 <= k < |sorted|
      ensures sorted[k] in xs
    {
      SameElementsMember(xs, sorted, sorted[k]);
    }
  }

  /** Looking up the k-th smallest id finds the k-th record in the order of ids. */
  method Lookup<T>(xs: seq<T>, key: T -> int, ids: seq<int>, k: nat, ghost sorted: seq<T>) returns (x: T)
    requires ById(ids, sorted, xs, key) && k < |ids|
    ensures x == sorted[k] && x in xs
  {
    x := FindById(xs, key, ids[k]);
  }

  /** A file up to its k-th record. */
  function FileUpTo<T>(xs: seq<T>, fields: T -> seq<Field>, k: nat): seq<Field>
    requires k <= |xs|
  {
    if k == 0 then [FU64(Count64(|xs|))] else FileUpTo(xs, fields, k - 1) + fields(xs[k - 1])
  }

  lemma {:induction false} WholeFile<T>(xs: seq<T>, fields: T -> seq<Field>, k: nat)
    requires k <= |xs|
    ensures FileUpTo(xs, fields, k) == [FU64(Count64(|xs|))] + Records(xs, fields, k)
  {
    if k > 0 {
      WholeFile(xs, fields, k - 1);
    }
  }

  // ----------------------------------------------------------------------- cameras.bin

  method WriteCameras(rec: Reconstruction, ids: seq<int>, ghost sorted: seq<ReconCamera>, rows: map<u32, RowCamera>)
    returns (out: BinWriter)
    requires ById(ids, sorted, rec.cameras, CameraId) && RowsOf(rows, rec.cameras)
    ensures out.Valid() && out.asked == FileFields(sorted, CameraRowFields)
  {
    out := new BinWriter();
    out.U64(Count64(|ids|));
    WholeFile(sorted, CameraRowFields, |sorted|);
    for k := 0 to |ids|
      invariant out.Valid() && fresh(out)
      invariant out.asked == FileUpTo(sorted, CameraRowFields, k)
    {
      var cam := Lookup(rec.cameras, CameraId, ids, k, sorted);
      WriteCamera(out, cam, rows[cam.cameraId]);
    }
  }

  method WriteCamera(out: BinWriter, cam: ReconCamera, row: RowCamera)
    requires out.Valid() && CameraRecord(cam) == Ok(row)
    modifies out
    ensures out.Valid() && out.asked == old(out.asked) + CameraRowFields(cam)
  {
    out.U32(cam.cameraId);
    out.U32(Unsigned32(row.modelId));
    out.U64(Unsigned64(cam.width));
    out.U64(Unsigned64(cam.height));
    out.Doubles(row.params);
    CameraParts(old(out.asked), FU32(cam.cameraId), FU32(Unsigned32(row.modelId)), FU64(Unsigned64(cam.width)),
                FU64(Unsigned64(cam.height)), DoubleFields(row.params));
  }

  lemma CameraParts(was: seq<Field>, id: Field, model: Field, w: Field, h: Field, params: seq<Field>)
    ensures was + [id] + [model] + [w] + [h] + params == was + ([id, model, w, h] + params)
  {
    assert [id] + [model] + [w] + [h] == [id, model, w, h];
  }

  // ------------------------------------------------------------------------ images.bin

  lemma ObservedByNone(points: seq<ReconPoint>, imageId: u32, idx: nat)
    requires !Observed(points, Slot(imageId, idx))
    ensures ObservedPoint(points, imageId, idx) == Unsigned64(-1)
  {
    if points != [] {
      forall p, j | 0 <= p < |points[1..]| && 0 <= j < |points[1..][p].track|
        ensures SlotOf(points[1..][p].track[j]) != Slot(imageId, idx)
      {
        assert points[p + 1].track[j] == points[1..][p].track[j];
      }
      forall j | 0 <= j < |points[0].track|
        ensures SlotOf(points[0].track[j]) != Slot(imageId, idx)
      {
      }
      ObservedByNone(points[1..], imageId, idx);
    }
  }

  lemma ObservedByFirst(points: seq<ReconPoint>, imageId: u32, idx: nat) returns (p: nat, j: nat)
    requires Observed(points, Slot(imageId, idx))
    ensures p < |points| && j < |points[p].track| && SlotOf(points[p].track[j]) == Slot(imageId, idx)
    ensures ObservedPoint(points, imageId, idx) == points[p].point3dId
  {
    if i :| 0 <= i < |points[0].track| && points[0].track[i].imageId == imageId
            && points[0].track[i].point2dIdx == idx {
      p, j := 0, i;
    } else {
      var q, i :| 0 <= q < |points| && 0 <= i < |points[q].track| && SlotOf(points[q].track[i]) == Slot(imageId, idx);
      assert points[1..][q - 1].track[i] == points[q].track[i];
      p, j := ObservedByFirst(points[1..], imageId, idx);
      p := p + 1;
    }
  }

  /** The index built during the checks gives every keypoint its observed point. */
  lemma IndexObserves(index: map<Slot, u64>, points: seq<ReconPoint>, imageId: u32, idx: nat)
    requires Tracked(index, points)
    ensures ObservedPoint(points, imageId, idx)
            == if Slot(imageId, idx) in index then index[Slot(imageId, idx)] else Unsigned64(-1)
  {
    if Observed(points, Slot(imageId, idx)) {
      var p, j := ObservedByFirst(points, imageId, idx);
    } else {
      ObservedByNone(points, imageId, idx);
    }
  }

  /** What images.bin says of a keypoint: the id of the one point whose track holds it. */
  lemma KeypointNamesItsPoint(points: seq<ReconPoint>, p: nat, j: nat)
    requires DisjointTracks(points) && p < |points| && j < |points[p].track| && points[p].track[j].point2dIdx >= 0
    ensures ObservedPoint(points, points[p].track[j].imageId, points[p].track[j].point2dIdx) == points[p].point3dId
  {
    var te := points[p].track[j];
    assert SlotOf(te) == Slot(te.imageId, te.point2dIdx);
    var q, i := ObservedByFirst(points, te.imageId, te.point2dIdx);
    assert points[q].track[i] == te;
  }

  /** A point with the largest id is written as -1 is: its keypoints read as unobserved ones. */
  lemma WrittenAsUnobserved(points: seq<ReconPoint>, imageId: u32, idx: nat)
    requires DisjointTracks(points)
    ensures ObservedPoint(points, imageId, idx) == Unsigned64(-1)
            <==> !Observed(points, Slot(imageId, idx)) || ObservedByLargest(points, Slot(imageId, idx))
  {
    if Observed(points, Slot(imageId, idx)) {
      var p, j := ObservedByFirst(points, imageId, idx);
      forall q, i | ObservedAt(points, Slot(imageId, idx), q, i)
        ensures q == p
      {
        assert points[q].track[i] == points[p].track[j];
      }
      assert ObservedAt(points, Slot(imageId, idx), p, j);
    } else {
      ObservedByNone(points, imageId, idx);
    }
  }

  predicate ObservedAt(points: seq<ReconPoint>, s: Slot, p: int, j: int) {
    0 <= p < |points| && 0 <= j < |points[p].track| && SlotOf(points[p].track[j]) == s
  }

  /** A point with id 2^64 - 1 holds the keypoint in its track. */
  ghost predicate ObservedByLargest(points: seq<ReconPoint>, s: Slot) {
    exists p, j :: ObservedAt(points, s, p, j) && points[p].point3dId == 0xFFFF_FFFF_FFFF_FFFF
  }

  lemma NoKeypoints(was: seq<Field>, points: seq<ReconPoint>, imageId: u32, ks: seq<Keypoint>)
    ensures was == was + KeypointFields(points, imageId, ks, 0)
  {
  }

  lemma OneMoreKeypoint(was: seq<Field>, now: seq<Field>, points: seq<ReconPoint>, imageId: u32, ks: seq<Keypoint>,
                        n: nat)
    requires n < |ks| && now == was + KeypointFields(points, imageId, ks, n)
    ensures now + [FDouble(ks[n].x)] + [FDouble(ks[n].y)] + [FU64(ObservedPoint(points, imageId, Count32(n)))]
            == was + KeypointFields(points, imageId, ks, n + 1)
  {
  }

  method WriteKeypoint(out: BinWriter, points: seq<ReconPoint>, index: map<Slot, u64>, imageId: u32, ks: seq<Keypoint>,
                       n: nat, ghost was: seq<Field>)
    requires out.Valid() && Tracked(index, points)
    requires n < |ks| && out.asked == was + KeypointFields(points, imageId, ks, n)
    modifies out
    ensures out.Valid() && out.asked == was + KeypointFields(points, imageId, ks, n + 1)
  {
    var slot := Slot(imageId, Count32(n));
    IndexObserves(index, points, imageId, Count32(n));
    OneMoreKeypoint(was, out.asked, points, imageId, ks, n);
    out.F64(ks[n].x);
    out.F64(ks[n].y);
    out.U64(if slot in index then index[slot] else Unsigned64(-1));
  }

  method WriteKeypoints(out: BinWriter, points: seq<ReconPoint>, index: map<Slot, u64>, imageId: u32, ks: seq<Keypoint>)
    requires out.Valid() && Tracked(index, points)
    modifies out
    ensures out.Valid() && out.asked == old(out.asked) + KeypointFields(points, imageId, ks, |ks|)
  {
    ghost var was := out.asked;
    NoKeypoints(was, points, imageId, ks);
    for n := 0 to |ks|
      invariant out.Valid() && out.asked == was + KeypointFields(points, imageId, ks, n)
    {
      WriteKeypoint(out, points, index, imageId, ks, n, was);
    }
  }

  method WriteImage(out: BinWriter, fp: Rounding, points: seq<ReconPoint>, index: map<Slot, u64>, img: ReconImage,
                    ks: seq<Keypoint>)
    requires out.Valid() && Tracked(index, points)
    modifies out
    ensures out.Valid() && out.asked == old(out.asked) + ImageFields(fp, points, img, ks)
  {
    var native := ConvertPose(fp, img.pose);
    var q, t := native.rotation, native.translation;
    out.U32(img.imageId);
    out.Doubles([q.w, q.x, q.y, q.z]);
    out.Doubles([t.x, t.y, t.z]);
    out.U32(img.cameraId);
    out.Text(img.name);
    out.U64(Count64(|ks|));
    WriteKeypoints(out, points, index, img.imageId, ks);
    ImageParts(old(out.asked), FU32(img.imageId), DoubleFields([q.w, q.x, q.y, q.z]), DoubleFields([t.x, t.y, t.z]),
               FU32(img.cameraId), FU32(Count32(|img.name|)), FText(img.name), FU64(Count64(|ks|)),
               KeypointFields(points, img.imageId, ks, |ks|));
  }

  lemma ImageParts(was: seq<Field>, id: Field, q: seq<Field>, t: seq<Field>, c: Field, len: Field, name: Field,
                   n: Field,
                   ks: seq<Field>)
    ensures was + [id] + q + t + [c] + [len, name] + [n] + ks == was + ([id] + q + t + [c, len, name, n] + ks)
  {
    assert [c] + [len, name] + [n] == [c, len, name, n];
    assert was + [id] + q + t + [c] + [len, name] + [n] + ks == was + ([id] + q + t + ([c] + [len, name] + [n]) + ks);
  }

  method WriteImages(fp: Rounding, rec: Reconstruction, ghost kps: Keypoints, ids: seq<int>,
                     ghost sorted: seq<ReconImage>,
                     found: Keypoints, index: map<Slot, u64>)
    returns (out: BinWriter)
    requires ById(ids, sorted, rec.images, ImageId) && Resolves(found, rec.images, kps) && Tracked(index, rec.points)
    ensures out.Valid() && out.asked == FileFields(sorted, ImageRowFields(fp, rec.points, kps))
  {
    out := new BinWriter();
    ghost var fields := ImageRowFields(fp, rec.points, kps);
    out.U64(Count64(|ids|));
    WholeFile(sorted, fields, |sorted|);
    for k := 0 to |ids|
      invariant out.Valid() && fresh(out)
      invariant out.asked == FileUpTo(sorted, fields, k)
    {
      var img := Lookup(rec.images, ImageId, ids, k, sorted);
      assert img.imageId in found;
      WriteImage(out, fp, rec.points, index, img, found[img.imageId]);
      assert fields(img) == ImageFields(fp, rec.points, img, found[img.imageId]);
    }
  }

  // ---------------------------------------------------------------------- points3D.bin

  method WriteTrack(out: BinWriter, track: seq<TrackElement>)
    requires out.Valid()
    modifies out
    ensures out.Valid() && out.asked == old(out.asked) + Records(track, TrackElementFields, |track|)
  {
    assert out.asked == old(out.asked) + Records(track, TrackElementFields, 0);
    for j := 0 to |track|
      invariant out.Valid() && out.asked == old(out.asked) + Records(track, TrackElementFields, j)
    {
      TrackElementNext(track, j, old(out.asked));
      out.U32(track[j].imageId);
      out.U32(Unsigned32(track[j].point2dIdx));
    }
  }

  lemma TrackElementNext(track: seq<TrackElement>, j: nat, was: seq<Field>)
    requires j < |track|
    ensures was + Records(track, TrackElementFields, j + 1)
            == was + Records(track, TrackElementFields, j) + [FU32(track[j].imageId)]
               + [FU32(Unsigned32(track[j].point2dIdx))]
  {
    assert TrackElementFields(track[j]) == [FU32(track[j].imageId)] + [FU32(Unsigned32(track[j].point2dIdx))];
  }

  method WritePoint(out: BinWriter, p: ReconPoint)
    requires out.Valid()
    modifies out
    ensures out.Valid() && out.asked == old(out.asked) + PointFields(p)
  {
    out.U64(p.point3dId);
    out.Doubles([p.xyz.x, p.xyz.y, p.xyz.z]);
    out.U8(p.color.r);
    out.U8(p.color.g);
    out.U8(p.color.b);
    out.F64(p.error);
    out.U64(Count64(|p.track|));
    WriteTrack(out, p.track);
    PointParts(old(out.asked), FU64(p.point3dId), DoubleFields([p.xyz.x, p.xyz.y, p.xyz.z]), FByte(p.color.r),
               FByte(p.color.g), FByte(p.color.b), FDouble(p.error), FU64(Count64(|p.track|)),
               Records(p.track, TrackElementFields, |p.track|));
  }

  lemma PointParts(was: seq<Field>, id: Field, xyz: seq<Field>, r: Field, g: Field, b: Field, e: Field, n: Field,
                   t: seq<Field>)
    ensures was + [id] + xyz + [r] + [g] + [b] + [e] + [n] + t == was + ([id] + xyz + [r, g, b, e] + [n] + t)
  {
    assert [r] + [g] + [b] + [e] == [r, g, b, e];
    assert was + [id] + xyz + [r] + [g] + [b] + [e] + [n] + t == was + ([id] + xyz + ([r] + [g] + [b] + [e]) + [n] + t);
  }

  method WritePoints(rec: Reconstruction, ids: seq<int>, ghost sorted: seq<ReconPoint>) returns (out: BinWriter)
    requires ById(ids, sorted, rec.points, PointId)
    ensures out.Valid() && out.asked == FileFields(sorted, PointFields)
  {
    out := new BinWriter();
    out.U64(Count64(|ids|));
    WholeFile(sorted, PointFields, |sorted|);
    for k := 0 to |ids|
      invariant out.Valid() && fresh(out)
      invariant out.asked == FileUpTo(sorted, PointFields, k)
    {
      var p := Lookup(rec.points, PointId, ids, k, sorted);
      WritePoint(out, p);
    }
  }

  // ----------------------------------------------------------------- the whole directory

  class ModelDir {
    var cameras: Option<seq<byte>>
    var images: Option<seq<byte>>
    var points: Option<seq<byte>>

    constructor (c: Option<seq<byte>>, i: Option<seq<byte>>, p: Option<seq<byte>>)
      ensures cameras == c && images == i && points == p
    {
      cameras, images, points := c, i, p;
    }
  }

  /** A file cut off at the first double that is refused. */
  function CutOff(fs: seq<Field>): Option<seq<byte>> {
    Some(Encode(UpToRefused(fs)))
  }

  /** What the three files hold when the writing stops at the first refused double. */
  twostate predicate Stopped(dir: ModelDir, cameras: seq<Field>, images: seq<Field>, points: seq<Field>)
    reads dir
  {
    && dir.cameras == CutOff(cameras)
    && dir.images == (if AllWritable(cameras) then CutOff(images) else old(dir.images))
    && dir.points == (if AllWritable(cameras) && AllWritable(images) then CutOff(points) else old(dir.points))
  }

  /** cameras.bin, and whether every double of it was accepted. */
  method WriteCamerasFile(dir: ModelDir, rec: Reconstruction, rows: map<u32, RowCamera>) returns (ok: bool)
    requires DistinctBy(rec.cameras, CameraId) && RowsOf(rows, rec.cameras)
    modifies dir
    ensures dir.cameras == CutOff(CamerasFile(rec)) && dir.images == old(dir.images) && dir.points == old(dir.points)
    ensures ok <==> AllWritable(CamerasFile(rec))
  {
    var ids := SortIds(rec.cameras, CameraId);
    var out := WriteCameras(rec, ids, SortBy(rec.cameras, CameraId), rows);
    dir.cameras := Some(out.bytes);
    ok := !out.failed;
  }

  method WriteImagesFile(dir: ModelDir, fp: Rounding, rec: Reconstruction, ghost kps: Keypoints, found: Keypoints,
                         index: map<Slot, u64>)
    returns (ok: bool)
    requires DistinctBy(rec.images, ImageId) && Resolves(found, rec.images, kps) && Tracked(index, rec.points)
    modifies dir
    ensures dir.images == CutOff(ImagesFile(fp, rec, kps)) && dir.cameras == old(dir.cameras)
    ensures dir.points == old(dir.points) && (ok <==> AllWritable(ImagesFile(fp, rec, kps)))
  {
    var ids := SortIds(rec.images, ImageId);
    var out := WriteImages(fp, rec, kps, ids, SortBy(rec.images, ImageId), found, index);
    dir.images := Some(out.bytes);
    ok := !out.failed;
  }

  method WritePointsFile(dir: ModelDir, rec: Reconstruction) returns (ok: bool)
    requires DistinctBy(rec.points, PointId)
    modifies dir
    ensures dir.points == CutOff(PointsFile(rec)) && dir.cameras == old(dir.cameras) && dir.images == old(dir.images)
    ensures ok <==> AllWritable(PointsFile(rec))
  {
    var ids := SortIds(rec.points, PointId);
    var out := WritePoints(rec, ids, SortBy(rec.points, PointId));
    dir.points := Some(out.bytes);
    ok := !out.failed;
  }

  method WriteFiles(dir: ModelDir, fp: Rounding, rec: Reconstruction, ghost kps: Keypoints, checked: Checked)
    returns (ok: bool)
    requires DistinctBy(rec.cameras, CameraId) && DistinctBy(rec.images, ImageId) && DistinctBy(rec.points, PointId)
    requires Describes(checked, rec, kps)
    modifies dir
    ensures ok <==> AllFinite(fp, rec, kps)
    ensures Stopped(dir, CamerasFile(rec), ImagesFile(fp, rec, kps), PointsFile(rec))
  {
    ok := WriteCamerasFile(dir, rec, checked.rows);
    if !ok {
      return;
    }
    ok := WriteImagesFile(dir, fp, rec, kps, checked.keypoints, checked.index);
    if !ok {
      return;
    }
    ok := WritePointsFile(dir, rec);
  }

  /** The writer succeeds exactly on accepted input without infinite or NaN doubles, and the
      three files are then the canonical ones. A rejected input leaves the directory as it
      was. An accepted input with such a double fails too, but only after cutting off the
      file in which it occurs: the directory is then a partial model. */
  method WriteColmapModel(dir: ModelDir, fp: Rounding, rec: Reconstruction, kps: Keypoints)
    returns (e: Option<WriterError>)
    modifies dir
    ensures e.None? <==> Accepts(rec, kps) && AllFinite(fp, rec, kps)
    ensures e.None? ==>
              && dir.cameras == Some(Encode(CamerasFile(rec)))
              && dir.images == Some(Encode(ImagesFile(fp, rec, kps)))
              && dir.points == Some(Encode(PointsFile(rec)))
    ensures !Accepts(rec, kps) ==> e.Some? && Cause(e.value, rec, kps) && unchanged(dir)
    ensures Accepts(rec, kps) && !AllFinite(fp, rec, kps) ==>
              e == Some(NonFiniteDouble) && Stopped(dir, CamerasFile(rec), ImagesFile(fp, rec, kps), PointsFile(rec))
  {
    var checked := Validate(rec, kps);
    if checked.Err? {
      return Some(checked.error);
    }
    var ok := WriteFiles(dir, fp, rec, kps, checked.value);
    if !ok {
      return Some(NonFiniteDouble);
    }
    NotCutOff(CamerasFile(rec));
    NotCutOff(ImagesFile(fp, rec, kps));
    NotCutOff(PointsFile(rec));
    e := None;
  }

  lemma {:induction false} NotCutOff(fs: seq<Field>)
    ensures AllWritable(fs) <==> UpToRefused(fs) == fs
  {
    if fs != [] {
      NotCutOff(fs[1..]);
      assert fs == [fs[0]] + fs[1..];
      assert AllWritable(fs) <==> Writable(fs[0]) && AllWritable(fs[1..]);
    }
  }
}
