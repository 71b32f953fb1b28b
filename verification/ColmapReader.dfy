/** BinaryReader and the parse loops of adapters/colmap/colmap_converter.cpp, proved to
    compute the parser of ColmapFormat on every byte string. */
module ColmapReader {
  import opened Wrappers
  import opened Collections
  import opened LittleEndian
  import opened Binary64
  import opened ColmapFormat
  import opened ColmapModel

  /** What a read did: the parser's value, and the parser's rest left to read. */
  ghost predicate Agrees<T>(p: Parsed<T>, r: Option<T>, rest: seq<byte>) {
    match p
    case Malformed => r.None?
    case Got(v, t) => r == Some(v) && rest == t
  }

  class BinaryReader {
    const bytes: seq<byte>
    var pos: nat

    ghost predicate Valid()
      reads this
    {
      pos <= |bytes|
    }

    ghost function Rest(): seq<byte>
      requires Valid()
      reads this
    {
      bytes[pos..]
    }

    constructor (data: seq<byte>)
      ensures Valid() && bytes == data && Rest() == data
    {
      bytes := data;
      pos := 0;
    }

    method U8() returns (r: Option<byte>)
      requires Valid()
      modifies this
      ensures Valid() && Agrees(ParseU8(old(Rest())), r, Rest())
    {
      if |bytes| - pos < 1 {
        return None;
      }
      r := Some(bytes[pos]);
      pos := pos + 1;
    }

    method U32() returns (r: Option<u32>)
      requires Valid()
      modifies this
      ensures Valid() && Agrees(ParseU32(old(Rest())), r, Rest())
      ensures r.None? ==> pos == old(pos)
    {
      if |bytes| - pos < 4 {
        return None;
      }
      ghost var four := Rest()[..4];
      NumberOfFour(four);
      var b0, b1, b2, b3 := bytes[pos] as int, bytes[pos + 1] as int, bytes[pos + 2] as int, bytes[pos + 3] as int;
      r := Some(b0 + 0x100 * b1 + 0x1_0000 * b2 + 0x100_0000 * b3);
      pos := pos + 4;
      assert Rest() == old(Rest())[4..];
    }

    method U64() returns (r: Option<u64>)
      requires Valid()
      modifies this
      ensures Valid() && Agrees(ParseU64(old(Rest())), r, Rest())
    {
      ghost var s := Rest();
      var lo := U32();
      if lo == None {
        return None;
      }
      var hi := U32();
      if hi == None {
        return None;
      }
      TwoHalves(s);
      r := Some(lo.value + 0x1_0000_0000 * hi.value);
    }

    method Text() returns (r: Option<seq<byte>>)
      requires Valid()
      modifies this
      ensures Valid() && Agrees(ParseText(old(Rest())), r, Rest())
    {
      var len := U32();
      if len == None || len.value > |bytes| - pos {
        return None;
      }
      ghost var t := Rest();
      r := Some(bytes[pos..pos + len.value]);
      assert bytes[pos..pos + len.value] == t[..len.value];
      pos := pos + len.value;
      assert Rest() == t[len.value..];
    }

    method Skip(count: nat) returns (r: Option<()>)
      requires Valid()
      modifies this
      ensures Valid()
      ensures r.Some? <==> count <= |old(Rest())|
      ensures r.Some? ==> Rest() == old(Rest())[count..]
    {
      if count > |bytes| - pos {
        return None;
      }
      pos := pos + count;
      r := Some(());
    }

    method Doubles(n: nat) returns (r: Option<seq<Double>>)
      requires Valid()
      modifies this
      ensures Valid() && Agrees(ParseDoubles(n, old(Rest())), r, Rest())
      ensures r.Some? ==> |r.value| == n
    {
      ghost var s := Rest();
      var ds: seq<Double> := [];
      for i := 0 to n
        invariant Valid() && ParseDoubles(i, s) == Got(ds, Rest())
      {
        DoublesSnoc(i, s);
        DoublesStop(i + 1, n, s);
        var d := U64();
        if d == None {
          return None;
        }
        ds := ds + [d.value];
      }
      r := Some(ds);
    }

    method Camera() returns (r: Option<SparseCamera>)
      requires Valid()
      modifies this
      ensures Valid() && Agrees(ParseCamera(old(Rest())), r, Rest())
    {
      ghost var s := Rest();
      var id := U32();
      if id == None { return None; }
      var bits := U32();
      if bits == None { return None; }
      var info := ModelInfo(Signed32(bits.value));
      if info == None { return None; }
      r := CameraOfModel(s, id.value, bits.value, info.value);
    }

    /** The rest of a camera whose model is known. */
    method CameraOfModel(ghost s: seq<byte>, id: u32, bits: u32, info: CameraModel) returns (r: Option<SparseCamera>)
      requires Valid() && ModelInfo(Signed32(bits)) == Some(info)
      requires ParseU32(s).Got? && ParseU32(s).value == id && ParseU32(ParseU32(s).rest) == Got(bits, Rest())
      modifies this
      ensures Valid() && Agrees(ParseCamera(s), r, Rest())
    {
      var width := U64();
      if width == None { return None; }
      var height := U64();
      if height == None { return None; }
      var params := Doubles(info.numParams);
      if params == None { return None; }
      r := Some(SparseCamera(id, info.name, info.intrinsicModel, Signed32(bits), Signed64(width.value),
                             Signed64(height.value), params.value, IntrinsicsOf(info, params.value)));
    }

    method NameAndPoints() returns (r: Option<seq<byte>>)
      requires Valid()
      modifies this
      ensures Valid() && Agrees(ParseNameAndPoints(old(Rest())), r, Rest())
    {
      r := Text();
      if r == None { return None; }
      var n := U64();
      if n == None { return None; }
      ghost var s := Rest();
      for i := 0 to n.value
        invariant Valid() && SkipPoints(i, s) == Got((), Rest())
      {
        SkipStop(i + 1, n.value, s);
        var skipped := Skip(24);
        if skipped == None { return None; }
      }
    }

    method Image() returns (r: Option<SparseImage>)
      requires Valid()
      modifies this
      ensures Valid() && Agrees(ParseImage(old(Rest())), r, Rest())
    {
      var id := U32();
      if id == None { return None; }
      var q := Doubles(4);
      if q == None { return None; }
      var t := Doubles(3);
      if t == None { return None; }
      var cameraId := U32();
      if cameraId == None { return None; }
      var name := NameAndPoints();
      if name == None { return None; }
      r := Some(SparseImage(id.value, cameraId.value, name.value,
                            DPose(DQuat(q.value[1], q.value[2], q.value[3], q.value[0]),
                                  DVec(t.value[0], t.value[1], t.value[2]))));
    }

    method Tracks() returns (r: Option<seq<SparseTrack>>)
      requires Valid()
      modifies this
      ensures Valid() && Agrees(ParseTracks(old(Rest())), r, Rest())
    {
      var n := U64();
      if n == None { return None; }
      ghost var s := Rest();
      var track: seq<SparseTrack> := [];
      for i := 0 to n.value
        invariant Valid() && ParseMany(ParseTrack, i, s) == Got(track, Rest())
      {
        ManySnoc(ParseTrack, i, s);
        ManyStop(ParseTrack, i + 1, n.value, s);
        var imageId := U32();
        if imageId == None { return None; }
        var idx := U32();
        if idx == None { return None; }
        track := track + [SparseTrack(imageId.value, idx.value)];
      }
      r := Some(track);
    }

    method Point() returns (r: Option<SparsePoint>)
      requires Valid()
      modifies this
      ensures Valid() && Agrees(ParsePoint(old(Rest())), r, Rest())
    {
      var id := U64();
      if id == None { return None; }
      var xyz := Doubles(3);
      if xyz == None { return None; }
      var red := U8();
      if red == None { return None; }
      var green := U8();
      if green == None { return None; }
      var blue := U8();
      if blue == None { return None; }
      var error := U64();
      if error == None { return None; }
      var track := Tracks();
      if track == None { return None; }
      r := Some(SparsePoint(id.value, DVec(xyz.value[0], xyz.value[1], xyz.value[2]),
                            Color(red.value, green.value, blue.value), error.value, track.value));
    }
  }

  lemma TwoHalves(s: seq<byte>)
    requires |s| >= 8
    ensures ParseU64(s).value == ParseU32(s).value + 0x1_0000_0000 * ParseU32(s[4..]).value
    ensures s[4..][4..] == s[8..]
  {
    NumberOfEight(s[..8]);
    assert s[..8][..4] == s[..4] && s[..8][4..] == s[4..][..4];
  }

  // Reading one more at the end, and failing for good.

  lemma {:induction false} DoublesSnoc(n: nat, s: seq<byte>)
    ensures ParseDoubles(n + 1, s) ==
              match ParseDoubles(n, s)
              case Malformed => Malformed
              case Got(ds, t) =>
                match ParseU64(t)
                case Malformed => Malformed
                case Got(d, u) => Got(ds + [d], u)
  {
    match ParseU64(s)
    case Malformed =>
    case Got(d, t) =>
      if n > 0 {
        DoublesSnoc(n - 1, t);
        if ParseDoubles(n - 1, t).Got? {
          var ds, u := ParseDoubles(n - 1, t).value, ParseDoubles(n - 1, t).rest;
          if ParseU64(u).Got? {
            assert [d] + (ds + [ParseU64(u).value]) == ([d] + ds) + [ParseU64(u).value];
          }
        }
      } else {
        assert ParseDoubles(0, t) == Got([], t) && [d] + [] == [] + [d];
      }
  }

  lemma DoublesStop(m: nat, n: nat, s: seq<byte>)
    requires m <= n
    ensures ParseDoubles(m, s).Malformed? ==> ParseDoubles(n, s).Malformed?
    decreases n - m
  {
    if m < n {
      DoublesSnoc(m, s);
      DoublesStop(m + 1, n, s);
    }
  }

  lemma SkipStop(m: nat, n: nat, s: seq<byte>)
    requires m <= n
    ensures SkipPoints(m, s).Malformed? ==> SkipPoints(n, s).Malformed?
    ensures m > 0 && 24 * m <= |s| ==> s[24 * (m - 1)..][24..] == s[24 * m..]
  {
  }

  lemma {:induction false} ManySnoc<T>(p: seq<byte> -> Parsed<T>, n: nat, s: seq<byte>)
    ensures ParseMany(p, n + 1, s) ==
              match ParseMany(p, n, s)
              case Malformed => Malformed
              case Got(xs, t) =>
                match p(t)
                case Malformed => Malformed
                case Got(x, u) => Got(xs + [x], u)
  {
    match p(s)
    case Malformed =>
    case Got(x, t) =>
      if n > 0 {
        ManySnoc(p, n - 1, t);
        if ParseMany(p, n - 1, t).Got? {
          var xs, u := ParseMany(p, n - 1, t).value, ParseMany(p, n - 1, t).rest;
          if p(u).Got? {
            assert [x] + (xs + [p(u).value]) == ([x] + xs) + [p(u).value];
          }
        }
      } else {
        assert ParseMany(p, 0, t) == Got([], t) && [x] + [] == [] + [x];
      }
  }

  lemma ManyStop<T>(p: seq<byte> -> Parsed<T>, m: nat, n: nat, s: seq<byte>)
    requires m <= n
    ensures ParseMany(p, m, s).Malformed? ==> ParseMany(p, n, s).Malformed?
    decreases n - m
  {
    if m < n {
      ManySnoc(p, m, s);
      ManyStop(p, m + 1, n, s);
    }
  }

  /** A file that starts with a count n of at most |s|, where s are the bytes after it. */
  ghost predicate Opens(file: seq<byte>, n: nat, s: seq<byte>) {
    ParseU64(file) == Got(n, s) && n <= |s|
  }

  ghost predicate ReadsTo<T>(p: seq<byte> -> Parsed<T>, i: nat, s: seq<byte>, xs: seq<T>, rest: seq<byte>) {
    ParseMany(p, i, s) == Got(xs, rest)
  }

  lemma ReadsNone<T>(p: seq<byte> -> Parsed<T>, s: seq<byte>)
    ensures ReadsTo(p, 0, s, [], s)
  {
  }

  /** Reading one more record of a file: the whole file is refused with it. */
  lemma ReadsNext<T>(p: seq<byte> -> Parsed<T>, file: seq<byte>, n: nat, s: seq<byte>, i: nat, xs: seq<T>,
                     before: seq<byte>, x: Option<T>, after: seq<byte>)
    requires Opens(file, n, s) && i < n && ReadsTo(p, i, s, xs, before) && Agrees(p(before), x, after)
    ensures x.None? ==> ParseFile(p, file) == None
    ensures x.Some? ==> ReadsTo(p, i + 1, s, xs + [x.value], after)
  {
    ManySnoc(p, i, s);
    ManyStop(p, i + 1, n, s);
  }

  lemma ReadsAll<T>(p: seq<byte> -> Parsed<T>, file: seq<byte>, n: nat, s: seq<byte>, xs: seq<T>, rest: seq<byte>)
    requires Opens(file, n, s) && ReadsTo(p, n, s, xs, rest)
    ensures ParseFile(p, file) == Some(xs)
  {
  }

  /** Too short for its count, or with fewer bytes than that after it. */
  predicate Refused(file: seq<byte>) {
    match ParseU64(file)
    case Malformed => true
    case Got(n, s) => n > |s|
  }

  lemma RefusedFile<T>(p: seq<byte> -> Parsed<T>, file: seq<byte>)
    requires Refused(file)
    ensures ParseFile(p, file) == None
  {
  }

  method Open(reader: BinaryReader, ghost file: seq<byte>) returns (num: Option<nat>)
    requires reader.Valid() && reader.Rest() == file
    modifies reader
    ensures reader.Valid()
    ensures num.None? ==> Refused(file)
    ensures num.Some? ==> Opens(file, num.value, reader.Rest())
  {
    num := reader.U64();
    if num != None && num.value > |reader.bytes| - reader.pos {
      num := None;
    }
  }

  method NextCamera(reader: BinaryReader, ghost file: seq<byte>, ghost n: nat, ghost s: seq<byte>, ghost i: nat,
                    ghost cameras: seq<SparseCamera>)
    returns (camera: Option<SparseCamera>)
    requires reader.Valid() && Opens(file, n, s) && i < n && ReadsTo(ParseCamera, i, s, cameras, reader.Rest())
    modifies reader
    ensures reader.Valid()
    ensures camera.None? ==> ParseFile(ParseCamera, file) == None
    ensures camera.Some? ==> ReadsTo(ParseCamera, i + 1, s, cameras + [camera.value], reader.Rest())
  {
    ghost var before := reader.Rest();
    camera := reader.Camera();
    ReadsNext(ParseCamera, file, n, s, i, cameras, before, camera, reader.Rest());
  }

  method ParseCameras(file: seq<byte>) returns (r: Option<seq<SparseCamera>>)
    ensures r == ParseFile(ParseCamera, file)
  {
    var reader := new BinaryReader(file);
    var num := Open(reader, file);
    if num == None {
      RefusedFile(ParseCamera, file);
      return None;
    }
    ghost var s := reader.Rest();
    ReadsNone(ParseCamera, s);
    var cameras: seq<SparseCamera> := [];
    for i := 0 to num.value
      invariant reader.Valid() && ReadsTo(ParseCamera, i, s, cameras, reader.Rest())
    {
      var camera := NextCamera(reader, file, num.value, s, i, cameras);
      if camera == None { return None; }
      cameras := cameras + [camera.value];
    }
    ReadsAll(ParseCamera, file, num.value, s, cameras, reader.Rest());
    r := Some(cameras);
  }

  method NextImage(reader: BinaryReader, ghost file: seq<byte>, ghost n: nat, ghost s: seq<byte>, ghost i: nat,
                   ghost images: seq<SparseImage>)
    returns (image: Option<SparseImage>)
    requires reader.Valid() && Opens(file, n, s) && i < n && ReadsTo(ParseImage, i, s, images, reader.Rest())
    modifies reader
    ensures reader.Valid()
    ensures image.None? ==> ParseFile(ParseImage, file) == None
    ensures image.Some? ==> ReadsTo(ParseImage, i + 1, s, images + [image.value], reader.Rest())
  {
    ghost var before := reader.Rest();
    image := reader.Image();
    ReadsNext(ParseImage, file, n, s, i, images, before, image, reader.Rest());
  }

  method ParseImages(file: seq<byte>) returns (r: Option<seq<SparseImage>>)
    ensures r == ParseFile(ParseImage, file)
  {
    var reader := new BinaryReader(file);
    var num := Open(reader, file);
    if num == None {
      RefusedFile(ParseImage, file);
      return None;
    }
    ghost var s := reader.Rest();
    ReadsNone(ParseImage, s);
    var images: seq<SparseImage> := [];
    for i := 0 to num.value
      invariant reader.Valid() && ReadsTo(ParseImage, i, s, images, reader.Rest())
    {
      var image := NextImage(reader, file, num.value, s, i, images);
      if image == None { return None; }
      images := images + [image.value];
    }
    ReadsAll(ParseImage, file, num.value, s, images, reader.Rest());
    r := Some(images);
  }

  method NextPoint(reader: BinaryReader, ghost file: seq<byte>, ghost n: nat, ghost s: seq<byte>, ghost i: nat,
                   ghost points: seq<SparsePoint>)
    returns (point: Option<SparsePoint>)
    requires reader.Valid() && Opens(file, n, s) && i < n && ReadsTo(ParsePoint, i, s, points, reader.Rest())
    modifies reader
    ensures reader.Valid()
    ensures point.None? ==> ParseFile(ParsePoint, file) == None
    ensures point.Some? ==> ReadsTo(ParsePoint, i + 1, s, points + [point.value], reader.Rest())
  {
    ghost var before := reader.Rest();
    point := reader.Point();
    ReadsNext(ParsePoint, file, n, s, i, points, before, point, reader.Rest());
  }

  method ParsePoints(file: seq<byte>) returns (r: Option<seq<SparsePoint>>)
    ensures r == ParseFile(ParsePoint, file)
  {
    var reader := new BinaryReader(file);
    var num := Open(reader, file);
    if num == None {
      RefusedFile(ParsePoint, file);
      return None;
    }
    ghost var s := reader.Rest();
    ReadsNone(ParsePoint, s);
    var points: seq<SparsePoint> := [];
    for i := 0 to num.value
      invariant reader.Valid() && ReadsTo(ParsePoint, i, s, points, reader.Rest())
    {
      var point := NextPoint(reader, file, num.value, s, i, points);
      if point == None { return None; }
      points := points + [point.value];
    }
    ReadsAll(ParsePoint, file, num.value, s, points, reader.Rest());
    r := Some(points);
  }

  /** ParseSparseModel: never out of bounds, never a partial model. */
  method ParseSparseModel(camerasBin: seq<byte>, imagesBin: seq<byte>, pointsBin: seq<byte>)
    returns (r: Option<SparseModel>)
    ensures r == ParseModel(camerasBin, imagesBin, pointsBin)
  {
    var cameras := ParseCameras(camerasBin);
    if cameras == None { return None; }
    var images := ParseImages(imagesBin);
    if images == None { return None; }
    var points := ParsePoints(pointsBin);
    if points == None { return None; }
    r := Some(SparseModel(SortBy(cameras.value, CameraKey), SortBy(images.value, ImageKey),
                          SortBy(points.value, PointKey)));
  }

  /** What the canonical lists take over as it is. The pose and the distortion are converted. */
  predicate CameraTaken(c: SparseCamera, r: ReconCamera) {
    && r.cameraId == c.cameraId && r.width == c.width && r.height == c.height
    && r.intrinsicModel == c.intrinsicModel && r.intrinsics == c.intrinsics && r.calibrationRef == ""
  }

  predicate ImageTaken(frames: map<seq<byte>, string>, i: SparseImage, r: ReconImage) {
    && r.imageId == i.imageId && r.cameraId == i.cameraId && r.name == i.name && r.detected
    && r.frameId == (if i.name in frames then frames[i.name] else "")
  }

  ghost predicate PointTaken(p: SparsePoint, r: ReconPoint) {
    && r.point3dId == p.point3dId && r.xyz == p.xyz && r.color == p.rgb && r.error == p.error
    && |r.track| == |p.track|
    && forall j :: 0 <= j < |p.track| ==>
         r.track[j].imageId == p.track[j].imageId
         && r.track[j].point2dIdx == if p.track[j].point2dIdx < 0x8000_0000 then p.track[j].point2dIdx
                                     else p.track[j].point2dIdx - 0x1_0000_0000
  }

  /** The conversion loops of SparseModelToReconstruction. */
  method SparseModelToReconstruction(fp: Rounding, frames: map<seq<byte>, string>, model: SparseModel)
    returns (rec: Reconstruction)
    ensures rec == ToReconstruction(fp, frames, model)
    ensures |rec.cameras| == |model.cameras| && |rec.images| == |model.images| && |rec.points| == |model.points|
    ensures forall k :: 0 <= k < |model.cameras| ==> CameraTaken(model.cameras[k], rec.cameras[k])
    ensures forall k :: 0 <= k < |model.images| ==> ImageTaken(frames, model.images[k], rec.images[k])
    ensures forall k :: 0 <= k < |model.points| ==> PointTaken(model.points[k], rec.points[k])
  {
    var cameras: seq<ReconCamera> := [];
    for i := 0 to |model.cameras|
      invariant |cameras| == i && forall k :: 0 <= k < i ==> cameras[k] == ToReconCamera(model.cameras[k])
    {
      cameras := cameras + [ToReconCamera(model.cameras[i])];
    }
    var images: seq<ReconImage> := [];
    for i := 0 to |model.images|
      invariant |images| == i && forall k :: 0 <= k < i ==> images[k] == ToReconImage(fp, frames, model.images[k])
    {
      images := images + [ToReconImage(fp, frames, model.images[i])];
    }
    var points: seq<ReconPoint> := [];
    for i := 0 to |model.points|
      invariant |points| == i && forall k :: 0 <= k < i ==> points[k] == ToReconPoint(model.points[k])
    {
      var src := model.points[i];
      var track: seq<TrackElement> := [];
      for j := 0 to |src.track|
        invariant |track| == j && forall k :: 0 <= k < j ==> track[k] == ToTrackElement(src.track[k])
      {
        track := track + [ToTrackElement(src.track[j])];
      }
      assert track == ToReconPoint(src).track;
      points := points + [ReconPoint(src.point3dId, src.xyz, src.rgb, src.error, track)];
    }
    assert cameras == ToReconCameras(model.cameras);
    assert images == ToReconImages(fp, frames, model.images);
    assert points == ToReconPoints(model.points);
    rec := Reconstruction(cameras, images, points);
  }
}
