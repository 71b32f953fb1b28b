/** The checks WriteColmapModel makes before it opens a file
    (adapters/colmap/colmap_model_writer.cpp, lines 170 to 285). */
module ColmapValidation {
  import opened Wrappers
  import opened Collections
  import opened LittleEndian
  import opened Binary64
  import opened ColmapFormat
  import opened ColmapModel

  /** What a rejection says about the input. */
  ghost predicate Cause(e: WriterError, rec: Reconstruction, kps: Keypoints) {
    match e
    case NoCameras => rec.cameras == []
    case NoImages => rec.images == []
    case DuplicateCameraId => !DistinctBy(rec.cameras, CameraId)
    case DuplicateImageId => !DistinctBy(rec.images, ImageId)
    case DuplicatePointId => !DistinctBy(rec.points, PointId)
    case EmptyImageName => exists i :: i in rec.images && i.name == []
    case DuplicateImageName => !DistinctNames(rec.images)
    case NegativeDimension => exists c :: c in rec.cameras && (c.width < 0 || c.height < 0)
    case NonFiniteCoefficient => exists c :: c in rec.cameras && CameraRecord(c) == Err(e)
    case UnexpectedCoefficients => exists c :: c in rec.cameras && CameraRecord(c) == Err(e)
    case WrongCoefficientCount => exists c :: c in rec.cameras && CameraRecord(c) == Err(e)
    case UnsupportedCamera => exists c :: c in rec.cameras && CameraRecord(c) == Err(e)
    case MissingKeypoints => exists i :: i in rec.images && i.imageId !in kps
    case EmptyKeypoints => exists i :: i in rec.images && i.imageId in kps && kps[i.imageId] == []
    case NaNKeypoint => exists i, k :: i in rec.images && i.imageId in kps && k in kps[i.imageId] && KeypointNaN(k)
    case UnknownTrackImage => TrackFault(e, rec.images, rec.points, kps)
    case TrackIndexOutOfRange => TrackFault(e, rec.images, rec.points, kps)
    case DuplicateTrackElement => TrackFault(e, rec.images, rec.points, kps)
    case NonFiniteDouble => false
  }

  predicate KeypointNaN(k: Keypoint) {
    IsNaN(k.x) || IsNaN(k.y)
  }

  /** A rejection is never wrong. */
  lemma CauseRefutes(e: WriterError, rec: Reconstruction, kps: Keypoints)
    requires Cause(e, rec, kps)
    ensures !Accepts(rec, kps)
  {
    if e.NegativeDimension? {
      var c :| c in rec.cameras && (c.width < 0 || c.height < 0);
      assert !CameraFine(c);
    } else if e.NonFiniteCoefficient? || e.UnexpectedCoefficients? || e.WrongCoefficientCount? || e.UnsupportedCamera? {
      var c :| c in rec.cameras && CameraRecord(c) == Err(e);
      assert !CameraFine(c);
    } else if e.EmptyImageName? {
      var i :| i in rec.images && i.name == [];
      assert !ImageFine(i, kps);
    } else if e.MissingKeypoints? {
      var i :| i in rec.images && i.imageId !in kps;
      assert !ImageFine(i, kps);
    } else if e.EmptyKeypoints? {
      var i :| i in rec.images && i.imageId in kps && kps[i.imageId] == [];
      assert !ImageFine(i, kps);
    } else if e.NaNKeypoint? {
      var i, k :| i in rec.images && i.imageId in kps && k in kps[i.imageId] && KeypointNaN(k);
      assert !ImageFine(i, kps);
    } else if e.UnknownTrackImage? {
      var p, te :| p in rec.points && te in p.track && !HasImage(rec.images, te.imageId);
      assert !TrackFine(te, rec.images, kps);
    } else if e.TrackIndexOutOfRange? {
      var p, te :| p in rec.points && te in p.track && te.imageId in kps && !(0 <= te.point2dIdx < |kps[te.imageId]|);
      assert !TrackFine(te, rec.images, kps);
    }
  }

  // ------------------------------------------------------------------- duplicate ids

  function Same(x: int): int { x }

  lemma DistinctIds<T>(xs: seq<T>, key: T -> int)
    ensures DistinctBy(xs, key) <==> DistinctBy(SortBy(Mapped(key, xs), Same), Same)
  {
    var ids := Mapped(key, xs);
    assert DistinctBy(xs, key) <==> DistinctBy(ids, Same);
    SortByCorrect(ids, Same);
    if DistinctBy(ids, Same) {
      DistinctPermutes(ids, SortBy(ids, Same), Same);
    }
    if DistinctBy(SortBy(ids, Same), Same) {
      DistinctPermutes(SortBy(ids, Same), ids, Same);
    }
  }

  ghost predicate NeverFalls(ids: seq<int>) {
    forall a, b :: 0 <= a < b < |ids| ==> ids[a] <= ids[b]
  }

  lemma SortedIds<T>(xs: seq<T>, key: T -> int)
    ensures NeverFalls(SortBy(Mapped(key, xs), Same))
  {
    var ids := SortBy(Mapped(key, xs), Same);
    SortByCorrect(Mapped(key, xs), Same);
    forall a, b | 0 <= a < b < |ids|
      ensures ids[a] <= ids[b]
    {
      assert Same(ids[a]) <= Same(ids[b]);
    }
  }

  /** The first n ids rise strictly. */
  ghost predicate Rising(ids: seq<int>, n: nat)
    requires n <= |ids|
  {
    forall a, b :: 0 <= a < b < n ==> ids[a] < ids[b]
  }

  lemma RisesOneMore(ids: seq<int>, n: nat)
    requires NeverFalls(ids) && n < |ids| && Rising(ids, n) && (n > 0 ==> ids[n - 1] != ids[n])
    ensures Rising(ids, n + 1)
  {
    forall a, b | 0 <= a < b < n + 1
      ensures ids[a] < ids[b]
    {
      if b == n && a < n - 1 {
        assert ids[a] < ids[n - 1] <= ids[n];
      }
    }
  }

  lemma EqualNeighbours(ids: seq<int>, n: nat)
    requires 0 < n < |ids| && ids[n - 1] == ids[n]
    ensures !DistinctBy(ids, Same)
  {
    assert Same(ids[n - 1]) == Same(ids[n]);
  }

  lemma RisingDistinct(ids: seq<int>)
    requires Rising(ids, |ids|)
    ensures DistinctBy(ids, Same)
  {
  }

  /** Sort the ids and look for equal neighbours. */
  method HasDuplicate<T>(xs: seq<T>, key: T -> int) returns (found: bool)
    ensures found <==> !DistinctBy(xs, key)
  {
    var ids := SortBy(Mapped(key, xs), Same);
    DistinctIds(xs, key);
    SortedIds(xs, key);
    for i := 0 to |ids|
      invariant Rising(ids, i)
    {
      if i > 0 {
        if ids[i - 1] == ids[i] {
          EqualNeighbours(ids, i);
          return true;
        }
      }
      RisesOneMore(ids, i);
    }
    RisingDistinct(ids);
    found := false;
  }

  // --------------------------------------------------------------- names and cameras

  method CheckNames(images: seq<ReconImage>) returns (e: Option<WriterError>)
    ensures e.None? ==> DistinctNames(images) && forall i :: i in images ==> i.name != []
    ensures e.Some? ==> e.value.EmptyImageName? || e.value.DuplicateImageName?
    ensures e == Some(EmptyImageName) ==> exists i :: i in images && i.name == []
    ensures e == Some(DuplicateImageName) ==> !DistinctNames(images)
  {
    var names: set<seq<byte>> := {};
    for n := 0 to |images|
      invariant forall k :: 0 <= k < n ==> images[k].name != [] && images[k].name in names
      invariant forall name :: name in names ==> exists k :: 0 <= k < n && images[k].name == name
      invariant DistinctNames(images[..n])
    {
      var name := images[n].name;
      if name == [] {
        return Some(EmptyImageName);
      }
      if name in names {
        return Some(DuplicateImageName);
      }
      names := names + {name};
    }
    assert images[..|images|] == images;
    e := None;
  }

  /** The rows of cameras with distinct ids, by camera id. */
  ghost predicate RowsOf(rows: map<u32, RowCamera>, cameras: seq<ReconCamera>) {
    forall k :: 0 <= k < |cameras| ==>
      cameras[k].cameraId in rows && CameraRecord(cameras[k]) == Ok(rows[cameras[k].cameraId])
  }

  method CheckCameras(cameras: seq<ReconCamera>) returns (r: Result<map<u32, RowCamera>, WriterError>)
    requires DistinctBy(cameras, CameraId)
    ensures r.Ok? ==> RowsOf(r.value, cameras) && forall c :: c in cameras ==> CameraFine(c)
    ensures r.Err? ==> exists c :: c in cameras && (if r.error.NegativeDimension? then c.width < 0 || c.height < 0
                                                    else CameraRecord(c) == Err(r.error))
    ensures r.Err? ==> r.error in {NegativeDimension, NonFiniteCoefficient, UnexpectedCoefficients,
                                   WrongCoefficientCount, UnsupportedCamera}
  {
    var rows: map<u32, RowCamera> := map[];
    for n := 0 to |cameras|
      invariant RowsOf(rows, cameras[..n]) && forall k :: 0 <= k < n ==> CameraFine(cameras[k])
    {
      var c := cameras[n];
      if c.width < 0 || c.height < 0 {
        return Err(NegativeDimension);
      }
      match CameraRecord(c)
      case Err(why) =>
        return Err(why);
      case Ok(row) =>
        assert forall k :: 0 <= k < n ==> CameraId(cameras[k]) != CameraId(c);
        rows := rows[c.cameraId := row];
    }
    assert cameras[..|cameras|] == cameras;
    r := Ok(rows);
  }

  // ------------------------------------------------------------------------ keypoints

  /** The keypoint lists of the images, by image id. */
  ghost predicate Resolves(found: Keypoints, images: seq<ReconImage>, kps: Keypoints) {
    && (forall id :: id in found <==> exists k :: 0 <= k < |images| && images[k].imageId == id)
    && (forall id :: id in found ==> id in kps && found[id] == kps[id])
  }

  method CheckKeypoints(images: seq<ReconImage>, kps: Keypoints) returns (r: Result<Keypoints, WriterError>)
    requires forall i :: i in images ==> i.name != []
    ensures r.Ok? ==> Resolves(r.value, images, kps) && forall i :: i in images ==> ImageFine(i, kps)
    ensures r.Err? ==> r.error in {MissingKeypoints, EmptyKeypoints, NaNKeypoint}
    ensures r == Err(MissingKeypoints) ==> exists i :: i in images && i.imageId !in kps
    ensures r == Err(EmptyKeypoints) ==> exists i :: i in images && i.imageId in kps && kps[i.imageId] == []
    ensures r == Err(NaNKeypoint) ==>
              exists i, k :: i in images && i.imageId in kps && k in kps[i.imageId] && KeypointNaN(k)
  {
    var found: Keypoints := map[];
    for n := 0 to |images|
      invariant Resolves(found, images[..n], kps)
      invariant forall k :: 0 <= k < n ==> ImageFine(images[k], kps)
    {
      var id := images[n].imageId;
      assert images[n] in images;
      if id !in kps {
        return Err(MissingKeypoints);
      }
      if kps[id] == [] {
        return Err(EmptyKeypoints);
      }
      for k := 0 to |kps[id]|
        invariant forall j :: 0 <= j < k ==> !KeypointNaN(kps[id][j])
      {
        if IsNaN(kps[id][k].x) || IsNaN(kps[id][k].y) {
          assert KeypointNaN(kps[id][k]) && kps[id][k] in kps[id];
          return Err(NaNKeypoint);
        }
      }
      NoneNaN(kps[id]);
      AddResolved(found, images, kps, n);
      found := found[id := kps[id]];
    }
    assert images[..|images|] == images;
    r := Ok(found);
  }

  lemma NoneNaN(ks: seq<Keypoint>)
    requires forall j :: 0 <= j < |ks| ==> !KeypointNaN(ks[j])
    ensures forall k :: k in ks ==> !IsNaN(k.x) && !IsNaN(k.y)
  {
  }

  lemma AddResolved(found: Keypoints, images: seq<ReconImage>, kps: Keypoints, n: nat)
    requires n < |images| && Resolves(found, images[..n], kps) && images[n].imageId in kps
    ensures Resolves(found[images[n].imageId := kps[images[n].imageId]], images[..n + 1], kps)
  {
    var id := images[n].imageId;
    var now := found[id := kps[id]];
    var before, after := images[..n], images[..n + 1];
    forall i | i in now
      ensures exists k :: 0 <= k < |after| && after[k].imageId == i
    {
      if i == id {
        assert after[n].imageId == i;
      } else {
        var k :| 0 <= k < n && before[k].imageId == i;
        assert after[k].imageId == i;
      }
    }
    forall k | 0 <= k < n + 1
      ensures after[k].imageId in now
    {
      if k < n {
        assert after[k] == before[k] && before[k].imageId in found;
      }
    }
  }

  // --------------------------------------------------------------------------- tracks

  /** One keypoint of one image. */
  datatype Slot = Slot(imageId: u32, idx: int)

  function SlotOf(te: TrackElement): Slot {
    Slot(te.imageId, te.point2dIdx)
  }

  /** Some point's track holds the keypoint. */
  ghost predicate Observed(points: seq<ReconPoint>, s: Slot) {
    exists p, j :: 0 <= p < |points| && 0 <= j < |points[p].track| && SlotOf(points[p].track[j]) == s
  }

  ghost predicate OnlyObserved(index: map<Slot, u64>, points: seq<ReconPoint>) {
    forall s :: s in index ==> Observed(points, s)
  }

  ghost predicate Indexes(index: map<Slot, u64>, points: seq<ReconPoint>) {
    forall p, j :: 0 <= p < |points| && 0 <= j < |points[p].track| ==>
      SlotOf(points[p].track[j]) in index && index[SlotOf(points[p].track[j])] == points[p].point3dId
  }

  /** The index from keypoints to the ids of the points whose tracks hold them. */
  ghost predicate Tracked(index: map<Slot, u64>, points: seq<ReconPoint>) {
    OnlyObserved(index, points) && Indexes(index, points) && DisjointTracks(points)
  }

  /** The points before the n-th, and the n-th with the first m elements of its track. */
  function Before(points: seq<ReconPoint>, n: nat, m: nat): seq<ReconPoint>
    requires n < |points| && m <= |points[n].track|
  {
    points[..n] + [points[n].(track := points[n].track[..m])]
  }

  /** A place in the tracks before a point is one in the tracks of the points so far. */
  lemma BeginPlace(points: seq<ReconPoint>, n: nat, p: nat, j: nat)
    requires n < |points| && p < |Before(points, n, 0)| && j < |Before(points, n, 0)[p].track|
    ensures p < n && Before(points, n, 0)[p] == points[..n][p]
  {
  }

  lemma BeginObserved(points: seq<ReconPoint>, n: nat, s: Slot)
    requires n < |points| && Observed(points[..n], s)
    ensures Observed(Before(points, n, 0), s)
  {
    var was, now := points[..n], Before(points, n, 0);
    var p, j :| 0 <= p < |was| && 0 <= j < |was[p].track| && SlotOf(was[p].track[j]) == s;
    assert now[p] == was[p];
  }

  lemma BeginIndexes(index: map<Slot, u64>, points: seq<ReconPoint>, n: nat)
    requires n < |points| && Indexes(index, points[..n])
    ensures Indexes(index, Before(points, n, 0))
  {
    var now := Before(points, n, 0);
    forall p, j | 0 <= p < |now| && 0 <= j < |now[p].track|
      ensures SlotOf(now[p].track[j]) in index && index[SlotOf(now[p].track[j])] == now[p].point3dId
    {
      BeginPlace(points, n, p, j);
    }
  }

  lemma BeginDisjoint(points: seq<ReconPoint>, n: nat)
    requires n < |points| && DisjointTracks(points[..n])
    ensures DisjointTracks(Before(points, n, 0))
  {
    var now := Before(points, n, 0);
    forall p, i, q, j | && 0 <= p < |now| && 0 <= i < |now[p].track| && 0 <= q < |now| && 0 <= j < |now[q].track|
                        && now[p].track[i] == now[q].track[j]
      ensures p == q && i == j
    {
      BeginPlace(points, n, p, i);
      BeginPlace(points, n, q, j);
    }
  }

  lemma Begin(index: map<Slot, u64>, points: seq<ReconPoint>, n: nat)
    requires n < |points| && Tracked(index, points[..n])
    ensures Tracked(index, Before(points, n, 0))
  {
    forall s | s in index
      ensures Observed(Before(points, n, 0), s)
    {
      BeginObserved(points, n, s);
    }
    BeginIndexes(index, points, n);
    BeginDisjoint(points, n);
  }

  lemma OldOrNew(points: seq<ReconPoint>, n: nat, m: nat, p: nat, j: nat)
    requires n < |points| && m < |points[n].track|
    requires p < |Before(points, n, m + 1)| && j < |Before(points, n, m + 1)[p].track|
    ensures Before(points, n, m)[p].point3dId == Before(points, n, m + 1)[p].point3dId
    ensures (p == n && j == m) || (j < |Before(points, n, m)[p].track|
                                   && Before(points, n, m + 1)[p].track[j] == Before(points, n, m)[p].track[j])
  {
  }

  lemma NewElement(points: seq<ReconPoint>, n: nat, m: nat)
    requires n < |points| && m < |points[n].track|
    ensures var now := Before(points, n, m + 1);
            && n < |now| && m < |now[n].track|
            && now[n].track[m] == points[n].track[m] && now[n].point3dId == points[n].point3dId
  {
  }

  lemma OldElement(points: seq<ReconPoint>, n: nat, m: nat, p: nat, j: nat)
    requires n < |points| && m < |points[n].track|
    requires p < |Before(points, n, m)| && j < |Before(points, n, m)[p].track|
    ensures var now := Before(points, n, m + 1);
            p < |now| && j < |now[p].track| && now[p].track[j] == Before(points, n, m)[p].track[j]
  {
  }

  lemma AdvanceObserved(points: seq<ReconPoint>, n: nat, m: nat, s: Slot)
    requires n < |points| && m < |points[n].track|
    requires s == SlotOf(points[n].track[m]) || Observed(Before(points, n, m), s)
    ensures Observed(Before(points, n, m + 1), s)
  {
    if s == SlotOf(points[n].track[m]) {
      NewElement(points, n, m);
    } else {
      var was := Before(points, n, m);
      var p, j :| 0 <= p < |was| && 0 <= j < |was[p].track| && SlotOf(was[p].track[j]) == s;
      OldElement(points, n, m, p, j);
    }
  }

  lemma AdvanceIndexes(index: map<Slot, u64>, points: seq<ReconPoint>, n: nat, m: nat)
    requires n < |points| && m < |points[n].track| && Indexes(index, Before(points, n, m))
    requires SlotOf(points[n].track[m]) !in index
    ensures Indexes(index[SlotOf(points[n].track[m]) := points[n].point3dId], Before(points, n, m + 1))
  {
    var now := Before(points, n, m + 1);
    var grown := index[SlotOf(points[n].track[m]) := points[n].point3dId];
    forall p, j | 0 <= p < |now| && 0 <= j < |now[p].track|
      ensures SlotOf(now[p].track[j]) in grown && grown[SlotOf(now[p].track[j])] == now[p].point3dId
    {
      OldOrNew(points, n, m, p, j);
      NewElement(points, n, m);
    }
  }

  lemma AdvanceDisjoint(index: map<Slot, u64>, points: seq<ReconPoint>, n: nat, m: nat)
    requires n < |points| && m < |points[n].track| && Tracked(index, Before(points, n, m))
    requires SlotOf(points[n].track[m]) !in index
    ensures DisjointTracks(Before(points, n, m + 1))
  {
    var now := Before(points, n, m + 1);
    forall p, i, q, j | && 0 <= p < |now| && 0 <= i < |now[p].track| && 0 <= q < |now| && 0 <= j < |now[q].track|
                        && now[p].track[i] == now[q].track[j]
      ensures p == q && i == j
    {
      NewElement(points, n, m);
      OldOrNew(points, n, m, p, i);
      OldOrNew(points, n, m, q, j);
    }
  }

  lemma Advance(index: map<Slot, u64>, points: seq<ReconPoint>, n: nat, m: nat)
    requires n < |points| && m < |points[n].track| && Tracked(index, Before(points, n, m))
    requires SlotOf(points[n].track[m]) !in index
    ensures Tracked(index[SlotOf(points[n].track[m]) := points[n].point3dId], Before(points, n, m + 1))
  {
    var grown := index[SlotOf(points[n].track[m]) := points[n].point3dId];
    forall s | s in grown
      ensures Observed(Before(points, n, m + 1), s)
    {
      AdvanceObserved(points, n, m, s);
    }
    AdvanceIndexes(index, points, n, m);
    AdvanceDisjoint(index, points, n, m);
  }

  lemma Finish(index: map<Slot, u64>, points: seq<ReconPoint>, n: nat)
    requires n < |points| && Tracked(index, Before(points, n, |points[n].track|))
    ensures Tracked(index, points[..n + 1])
  {
    assert points[n].track[..|points[n].track|] == points[n].track;
    assert Before(points, n, |points[n].track|) == points[..n + 1];
  }

  /** An element already indexed is held by an earlier place in the tracks. */
  lemma Repeated(index: map<Slot, u64>, points: seq<ReconPoint>, n: nat, m: nat)
    requires n < |points| && m < |points[n].track| && Tracked(index, Before(points, n, m))
    requires SlotOf(points[n].track[m]) in index
    ensures !DisjointTracks(points)
  {
    var was := Before(points, n, m);
    var p, j :| 0 <= p < |was| && 0 <= j < |was[p].track| && SlotOf(was[p].track[j]) == SlotOf(points[n].track[m]);
    assert p < n ==> was[p] == points[p];
    assert p == n ==> j < m;
    TwiceObserved(points, p, j, n, m);
  }

  lemma TwiceObserved(points: seq<ReconPoint>, p: nat, i: nat, q: nat, j: nat)
    requires p < |points| && i < |points[p].track| && q < |points| && j < |points[q].track|
    requires points[p].track[i] == points[q].track[j] && (p != q || i != j)
    ensures !DisjointTracks(points)
  {
  }

  /** What a rejected track is rejected for. */
  ghost predicate TrackFault(e: WriterError, images: seq<ReconImage>, points: seq<ReconPoint>, kps: Keypoints) {
    match e
    case UnknownTrackImage => exists p, te :: p in points && te in p.track && !HasImage(images, te.imageId)
    case TrackIndexOutOfRange =>
      exists p, te :: p in points && te in p.track && te.imageId in kps && !(0 <= te.point2dIdx < |kps[te.imageId]|)
    case DuplicateTrackElement => !DisjointTracks(points)
    case _ => false
  }

  method CheckTrack(images: seq<ReconImage>, points: seq<ReconPoint>, kps: Keypoints, found: Keypoints, n: nat,
                    before: map<Slot, u64>)
    returns (r: Result<map<Slot, u64>, WriterError>)
    requires n < |points| && Resolves(found, images, kps) && Tracked(before, points[..n])
    ensures r.Ok? ==> Tracked(r.value, points[..n + 1])
    ensures r.Ok? ==> forall te :: te in points[n].track ==> TrackFine(te, images, kps)
    ensures r.Err? ==> TrackFault(r.error, images, points, kps)
  {
    var index: map<Slot, u64> := before;
    var pt := points[n];
    Begin(index, points, n);
    for m := 0 to |pt.track|
      invariant Tracked(index, Before(points, n, m))
      invariant forall j :: 0 <= j < m ==> TrackFine(pt.track[j], images, kps)
    {
      var te := pt.track[m];
      assert pt in points && te in pt.track;
      if te.imageId !in found {
        NotFound(found, images, kps, te.imageId);
        return Err(UnknownTrackImage);
      }
      if te.point2dIdx < 0 || te.point2dIdx >= |found[te.imageId]| {
        return Err(TrackIndexOutOfRange);
      }
      if SlotOf(te) in index {
        Repeated(index, points, n, m);
        return Err(DuplicateTrackElement);
      }
      FoundImage(found, images, kps, te);
      Advance(index, points, n, m);
      index := index[SlotOf(te) := pt.point3dId];
    }
    Finish(index, points, n);
    r := Ok(index);
  }

  method CheckTracks(images: seq<ReconImage>, points: seq<ReconPoint>, kps: Keypoints, found: Keypoints)
    returns (r: Result<map<Slot, u64>, WriterError>)
    requires Resolves(found, images, kps)
    ensures r.Ok? ==> Tracked(r.value, points)
    ensures r.Ok? ==> forall p, te :: p in points && te in p.track ==> TrackFine(te, images, kps)
    ensures r.Err? ==> TrackFault(r.error, images, points, kps)
  {
    var index: map<Slot, u64> := map[];
    for n := 0 to |points|
      invariant Tracked(index, points[..n])
      invariant forall p, te :: 0 <= p < n && te in points[p].track ==> TrackFine(te, images, kps)
    {
      var step := CheckTrack(images, points, kps, found, n, index);
      if step.Err? {
        return step;
      }
      index := step.value;
    }
    assert points[..|points|] == points;
    r := Ok(index);
  }

  lemma FoundImage(found: Keypoints, images: seq<ReconImage>, kps: Keypoints, te: TrackElement)
    requires Resolves(found, images, kps) && te.imageId in found
    requires 0 <= te.point2dIdx < |found[te.imageId]|
    ensures TrackFine(te, images, kps)
  {
    var k :| 0 <= k < |images| && images[k].imageId == te.imageId;
    assert images[k] in images;
  }

  lemma NotFound(found: Keypoints, images: seq<ReconImage>, kps: Keypoints, id: u32)
    requires Resolves(found, images, kps) && id !in found
    ensures !HasImage(images, id)
  {
  }

  // --------------------------------------------------------------------- all the checks

  /** What the checks hand to the writing of the files. */
  datatype Checked = Checked(rows: map<u32, RowCamera>, keypoints: Keypoints, index: map<Slot, u64>)

  ghost predicate Describes(c: Checked, rec: Reconstruction, kps: Keypoints) {
    && RowsOf(c.rows, rec.cameras) && Resolves(c.keypoints, rec.images, kps) && Tracked(c.index, rec.points)
  }

  /** The checks accept exactly the acceptable inputs, and each rejection names a fault. */
  method Validate(rec: Reconstruction, kps: Keypoints) returns (r: Result<Checked, WriterError>)
    ensures r.Ok? <==> Accepts(rec, kps)
    ensures r.Ok? ==> Describes(r.value, rec, kps)
    ensures r.Err? ==> Cause(r.error, rec, kps)
  {
    if rec.cameras == [] { return Err(NoCameras); }
    if rec.images == [] { return Err(NoImages); }
    var twice := HasDuplicate(rec.cameras, CameraId);
    if twice { return Err(DuplicateCameraId); }
    twice := HasDuplicate(rec.images, ImageId);
    if twice { return Err(DuplicateImageId); }
    twice := HasDuplicate(rec.points, PointId);
    if twice { return Err(DuplicatePointId); }
    var e := CheckNames(rec.images);
    if e.Some? {
      CauseRefutes(e.value, rec, kps);
      return Err(e.value);
    }
    var rows := CheckCameras(rec.cameras);
    if rows.Err? {
      CauseRefutes(rows.error, rec, kps);
      return Err(rows.error);
    }
    var keypoints := CheckKeypoints(rec.images, kps);
    if keypoints.Err? {
      CauseRefutes(keypoints.error, rec, kps);
      return Err(keypoints.error);
    }
    var index := CheckTracks(rec.images, rec.points, kps, keypoints.value);
    if index.Err? {
      CauseRefutes(index.error, rec, kps);
      return Err(index.error);
    }
    r := Ok(Checked(rows.value, keypoints.value, index.value));
  }
}
