/** Runs of the artifact store: puts that may be interrupted between their three durable
    writes, reads, collections and external corruption, in any order. */
module ArtifactRuns {
  import opened Wrappers
  import opened LittleEndian
  import opened ArtifactStores

  /** A put on its way: the payload is on disk; the manifest may be. */
  datatype Flight = Flight(m: Manifest, described: bool)

  /** The disk, the puts on their way, and the rest of a running collection. */
  datatype Store = Store(disk: Disk, flights: set<Flight>, gc: Option<Plan>)

  const EMPTY := Store(Disk(map[], map[], map[], map[]), {}, None)

  datatype Step =
    | BeginPut(b: Bytes, m: Manifest, generated: Uuid)
    | BeginInstance(h: Hash, m: Manifest, generated: Uuid)
    | WriteManifest(f: Flight)
    | WriteIndexRow(f: Flight)
    | Reads(h: Hash)
    | ReadDies(h: Hash)
    | BeginCollection
    | RemovePayload(h: Hash)
    | RemoveManifest(u: Uuid)
    | EndCollection
    | Crash
    | Corrupt(h: Hash, b: Bytes)

  /** The id of a new instance is used nowhere yet. */
  ghost predicate FreshId(s: Store, id: Uuid) {
    id !in s.disk.rows && id !in s.disk.manifests && forall f :: f in s.flights ==> f.m.uuid != id
  }

  ghost predicate Enabled(sha: Bytes -> Hash, s: Store, a: Step) {
    match a
    case BeginPut(b, m, g) =>
      s.gc.None? && (!Indexed(s.disk.rows, sha(b)) ==> FreshId(s, Stamped(m, sha(b), |b|, g).uuid))
    case BeginInstance(h, m, g) => s.gc.None? && FreshId(s, Stamped(m, h, 0, g).uuid)
    case WriteManifest(f) => f in s.flights && !f.described
    case WriteIndexRow(f) => f in s.flights && f.described
    case Reads(_) => true
    case ReadDies(h) => Read(sha, s.disk, h) == Mismatch
    case BeginCollection => s.gc.None? && s.flights == {}
    case RemovePayload(h) => s.gc.Some? && h in s.gc.value.payloads
    case RemoveManifest(u) => s.gc.Some? && u in s.gc.value.manifests
    case EndCollection => s.gc == Some(Plan({}, {}))
    case Crash => true
    case Corrupt(h, _) => h in s.disk.payloads
  }

  ghost function Do(sha: Bytes -> Hash, s: Store, a: Step): Store
    requires Enabled(sha, s, a)
  {
    var d := s.disk;
    match a
    case BeginPut(b, m, g) =>
      if Indexed(d.rows, sha(b)) then s
      else s.(disk := WithPayload(d, sha(b), b), flights := s.flights + {Flight(Stamped(m, sha(b), |b|, g), false)})
    case BeginInstance(h, m, g) =>
      if h !in d.payloads then s
      else s.(flights := s.flights + {Flight(Stamped(m, h, |d.payloads[h]|, g), false)})
    case WriteManifest(f) => s.(disk := WithManifest(d, f.m), flights := s.flights - {f} + {f.(described := true)})
    case WriteIndexRow(f) => s.(disk := WithRow(d, f.m), flights := s.flights - {f})
    case Reads(h) => s.(disk := AfterRead(sha, d, h))
    case ReadDies(h) => s.(disk := Quarantined(d, h))
    case BeginCollection => s.(gc := Some(Garbage(d)))
    case RemovePayload(h) =>
      s.(disk := d.(payloads := d.payloads - {h}), gc := Some(s.gc.value.(payloads := s.gc.value.payloads - {h})))
    case RemoveManifest(u) =>
      s.(disk := d.(manifests := d.manifests - {u}), gc := Some(s.gc.value.(manifests := s.gc.value.manifests - {u})))
    case EndCollection => s.(gc := None)
    case Crash => s.(flights := {}, gc := None)
    case Corrupt(h, b) => s.(disk := d.(payloads := d.payloads[h := b]))
  }

  /** A run: the stores it goes through, from the empty one. */
  ghost predicate Run(sha: Bytes -> Hash, steps: seq<Step>, trace: seq<Store>) {
    && |trace| == |steps| + 1 && trace[0] == EMPTY
    && forall i :: 0 <= i < |steps| ==> Moves(sha, trace[i], steps[i], trace[i + 1])
  }

  ghost predicate Moves(sha: Bytes -> Hash, s: Store, a: Step, t: Store) {
    Enabled(sha, s, a) && t == Do(sha, s, a)
  }

  // ------------------------------------------------------------------------- invariants

  /** The payload of the hash is in the store or in quarantine. */
  predicate Kept(d: Disk, h: Hash) {
    h in d.payloads || h in d.quarantine
  }

  /** Everything indexed, and everything about to be, is kept. */
  ghost predicate AllKept(s: Store) {
    && UniqueHashes(s.disk.rows)
    && (forall u :: u in s.disk.rows ==> Kept(s.disk, s.disk.rows[u].hash))
    && (forall f :: f in s.flights ==> Kept(s.disk, f.m.hash))
    && (s.gc.Some? ==> s.flights == {} && Spares(s.disk, s.gc.value))
  }

  /** What a running collection still means to remove is garbage, and all the garbage. */
  ghost predicate Spares(d: Disk, p: Plan) {
    && (forall h :: h in d.payloads && h !in p.payloads ==> Indexed(d.rows, h))
    && (forall h :: h in p.payloads ==> !Indexed(d.rows, h))
    && (forall u :: u in d.manifests && u !in p.manifests ==> Indexed(d.rows, d.manifests[u].hash))
  }

  /** No two puts on their way, and no row, share an id. */
  ghost predicate IdsApart(s: Store) {
    && (forall f :: f in s.flights ==> f.m.uuid !in s.disk.rows)
    && (forall f, g :: f in s.flights && g in s.flights && f.m.uuid == g.m.uuid ==> f == g)
  }

  lemma IdsStayApart(sha: Bytes -> Hash, s: Store, a: Step)
    requires IdsApart(s) && Enabled(sha, s, a)
    ensures IdsApart(Do(sha, s, a))
  {
  }

  lemma SameHashesIndexed(rows: map<Uuid, Row>, h: Hash)
    ensures forall k :: Indexed(Degraded(rows, h), k) <==> Indexed(rows, k)
    ensures UniqueHashes(rows) ==> UniqueHashes(Degraded(rows, h))
  {
    var after := Degraded(rows, h);
    forall k
      ensures Indexed(after, k) <==> Indexed(rows, k)
    {
      if Indexed(rows, k) {
        var u :| u in rows && rows[u].hash == k;
        assert u in after && after[u].hash == k;
      }
    }
  }

  lemma ReadKeeps(sha: Bytes -> Hash, s: Store, h: Hash)
    requires AllKept(s)
    ensures AllKept(Do(sha, s, Reads(h)))
  {
    SameHashesIndexed(s.disk.rows, h);
  }

  lemma RowKeeps(sha: Bytes -> Hash, s: Store, f: Flight)
    requires AllKept(s) && Enabled(sha, s, WriteIndexRow(f))
    ensures AllKept(Do(sha, s, WriteIndexRow(f)))
  {
  }

  lemma KeptStays(sha: Bytes -> Hash, s: Store, a: Step)
    requires AllKept(s) && Enabled(sha, s, a)
    ensures AllKept(Do(sha, s, a))
  {
    match a
    case Reads(h) => ReadKeeps(sha, s, h);
    case WriteIndexRow(f) => RowKeeps(sha, s, f);
    case _ =>
  }

  /** Whatever crashes or corruptions occur, every indexed hash has its payload in the store
      or in quarantine. */
  lemma {:induction false} NothingIndexedIsLost(sha: Bytes -> Hash, steps: seq<Step>, trace: seq<Store>, i: nat)
    requires Run(sha, steps, trace) && i < |trace|
    ensures AllKept(trace[i]) && IdsApart(trace[i])
  {
    if i > 0 {
      NothingIndexedIsLost(sha, steps, trace, i - 1);
      assert Moves(sha, trace[i - 1], steps[i - 1], trace[i]);
      KeptStays(sha, trace[i - 1], steps[i - 1]);
      IdsStayApart(sha, trace[i - 1], steps[i - 1]);
    }
  }

  /** When a collection ends, every payload and every manifest on disk is indexed, whatever
      was read meanwhile, and another collection would find nothing. */
  lemma CollectionEndsClean(sha: Bytes -> Hash, steps: seq<Step>, trace: seq<Store>, i: nat)
    requires Run(sha, steps, trace) && i < |steps| && steps[i] == EndCollection
    ensures forall h :: h in trace[i].disk.payloads ==> Indexed(trace[i].disk.rows, h)
    ensures Garbage(trace[i + 1].disk) == Plan({}, {})
  {
    NothingIndexedIsLost(sha, steps, trace, i);
    assert Moves(sha, trace[i], steps[i], trace[i + 1]);
  }

  // ------------------------------------------------------------------ without corruption

  /** Nothing was quarantined and every payload has the digest it is filed under. */
  ghost predicate Clean(sha: Bytes -> Hash, d: Disk) {
    d.quarantine == map[] && forall h :: h in d.payloads ==> sha(d.payloads[h]) == h
  }

  lemma CleanStays(sha: Bytes -> Hash, s: Store, a: Step)
    requires Clean(sha, s.disk) && Enabled(sha, s, a) && !a.Corrupt?
    ensures Clean(sha, Do(sha, s, a).disk)
  {
  }

  lemma {:induction false} CleanAt(sha: Bytes -> Hash, steps: seq<Step>, trace: seq<Store>, i: nat)
    requires Run(sha, steps, trace) && i < |trace|
    requires forall k :: 0 <= k < i ==> !steps[k].Corrupt?
    ensures Clean(sha, trace[i].disk)
  {
    if i > 0 {
      CleanAt(sha, steps, trace, i - 1);
      assert Moves(sha, trace[i - 1], steps[i - 1], trace[i]);
      CleanStays(sha, trace[i - 1], steps[i - 1]);
    }
  }

  lemma IndexedStays(sha: Bytes -> Hash, s: Store, a: Step, h: Hash)
    requires AllKept(s) && IdsApart(s) && Enabled(sha, s, a) && Indexed(s.disk.rows, h)
    ensures Indexed(Do(sha, s, a).disk.rows, h)
  {
    match a
    case Reads(k) => SameHashesIndexed(s.disk.rows, k);
    case WriteIndexRow(f) => UpsertIndexes(s.disk.rows, f.m.uuid, RowOf(f.m), h);
    case _ =>
  }

  /** A hash once indexed stays indexed. */
  lemma {:induction false} IndexedForever(sha: Bytes -> Hash, steps: seq<Step>, trace: seq<Store>, i: nat, j: nat,
                                          h: Hash)
    requires Run(sha, steps, trace) && i <= j < |trace| && Indexed(trace[i].disk.rows, h)
    ensures Indexed(trace[j].disk.rows, h)
    decreases j - i
  {
    if i < j {
      NothingIndexedIsLost(sha, steps, trace, i);
      assert Moves(sha, trace[i], steps[i], trace[i + 1]);
      IndexedStays(sha, trace[i], steps[i], h);
      IndexedForever(sha, steps, trace, i + 1, j, h);
    }
  }

  /** No other bytes have this digest. */
  ghost predicate NoCollision(sha: Bytes -> Hash, b: Bytes) {
    forall x :: sha(x) == sha(b) ==> x == b
  }

  /** Without external corruption, once bytes are indexed every later read returns exactly
      them: through crashes, collections and reads of other payloads. */
  lemma GetReturnsWhatWasPut(sha: Bytes -> Hash, steps: seq<Step>, trace: seq<Store>, i: nat, j: nat, b: Bytes)
    requires Run(sha, steps, trace) && i <= j < |trace|
    requires forall k :: 0 <= k < j ==> !steps[k].Corrupt?
    requires Indexed(trace[i].disk.rows, sha(b)) && NoCollision(sha, b)
    ensures Read(sha, trace[j].disk, sha(b)) == Found(b)
  {
    IndexedForever(sha, steps, trace, i, j, sha(b));
    NothingIndexedIsLost(sha, steps, trace, j);
    CleanAt(sha, steps, trace, j);
  }

  /** Even under corruption a read returns the bytes of that digest or none. */
  lemma NeverWrongBytes(sha: Bytes -> Hash, d: Disk, b: Bytes)
    requires NoCollision(sha, b)
    ensures Read(sha, d, sha(b)).Found? ==> Read(sha, d, sha(b)).bytes == b
  {
  }

  // ------------------------------------------------------------------ ids used twice

  /** Indexing an instance under an id in use drops the hash that id stood for. */
  lemma ReusedIdDropsHash(d: Disk, m: Manifest, h: Hash)
    requires UniqueHashes(d.rows) && Indexed(d.rows, h)
    ensures !Indexed(WithRow(d, m).rows, h) <==> m.uuid in d.rows && d.rows[m.uuid].hash == h && m.hash != h
  {
    UpsertIndexes(d.rows, m.uuid, RowOf(m), h);
  }

  /** Two puts under one id, then a collection: the first payload is gone. */
  lemma ReusedIdLosesPayload(sha: Bytes -> Hash, a: Bytes, b: Bytes, id: Uuid, ma: Manifest, mb: Manifest)
    returns (d: Disk)
    requires sha(a) != sha(b) && ma == Manifest(id, sha(a), |a|, "") && mb == Manifest(id, sha(b), |b|, "")
    ensures var one := AfterPut(sha, EMPTY.disk, a, ma);
            && Read(sha, one, sha(a)) == Found(a)
            && d == AfterPut(sha, one, b, mb)
            && Read(sha, Swept(d, Garbage(d)), sha(a)) == Missing
  {
    var one := AfterPut(sha, EMPTY.disk, a, ma);
    assert one.rows == map[id := RowOf(ma)];
    d := AfterPut(sha, one, b, mb);
    assert d.rows == map[id := RowOf(mb)];
  }

  // -------------------------------------------------------------------- no way back

  lemma OneStep(sha: Bytes -> Hash, steps: seq<Step>, trace: seq<Store>, a: Step)
    returns (more: seq<Step>, after: seq<Store>)
    requires Run(sha, steps, trace) && Enabled(sha, trace[|steps|], a)
    ensures Run(sha, more, after) && more == steps + [a] && after == trace + [Do(sha, trace[|steps|], a)]
  {
    more, after := steps + [a], trace + [Do(sha, trace[|steps|], a)];
    forall i | 0 <= i < |more|
      ensures Moves(sha, after[i], more[i], after[i + 1])
    {
      if i < |steps| {
        assert Moves(sha, trace[i], steps[i], trace[i + 1]);
      }
    }
  }

  /** The disk with the bytes put under an id. */
  function Holding(sha: Bytes -> Hash, b: Bytes, m: Manifest): Disk {
    Disk(map[sha(b) := b], map[m.uuid := m], map[m.uuid := RowOf(m)], map[])
  }

  lemma PutOnce(sha: Bytes -> Hash, b: Bytes, m: Manifest) returns (steps: seq<Step>, trace: seq<Store>)
    requires m == Manifest(m.uuid, sha(b), |b|, m.details) && m.uuid != NIL
    ensures Run(sha, steps, trace)
    ensures steps == [BeginPut(b, m, NIL), WriteManifest(Flight(m, false)), WriteIndexRow(Flight(m, true))]
    ensures trace[3] == Store(Holding(sha, b, m), {}, None)
  {
    steps, trace := [], [EMPTY];
    steps, trace := OneStep(sha, steps, trace, BeginPut(b, m, NIL));
    assert trace[1].flights == {Flight(m, false)};
    steps, trace := OneStep(sha, steps, trace, WriteManifest(Flight(m, false)));
    assert trace[2].flights == {Flight(m, true)};
    steps, trace := OneStep(sha, steps, trace, WriteIndexRow(Flight(m, true)));
    assert trace[3].flights == {};
    assert trace[3].disk.rows == map[m.uuid := RowOf(m)];
  }

  /** Reading a corrupted payload moves it away and keeps its row. */
  lemma CorruptedThenRead(sha: Bytes -> Hash, b: Bytes, x: Bytes, m: Manifest, d: Disk)
    requires d == Holding(sha, b, m) && m.hash == sha(b) && sha(x) != sha(b)
    ensures var after := AfterRead(sha, d.(payloads := d.payloads[sha(b) := x]), sha(b));
            sha(b) !in after.payloads && m.uuid in after.rows && after.rows[m.uuid].hash == sha(b)
  {
  }

  /** A run that puts bytes, finds them corrupted, and puts them again: they stay unreadable. */
  lemma PutAgainInVain(sha: Bytes -> Hash, b: Bytes, x: Bytes, m: Manifest)
    returns (steps: seq<Step>, trace: seq<Store>)
    requires m == Manifest(m.uuid, sha(b), |b|, m.details) && m.uuid != NIL && sha(x) != sha(b)
    ensures Run(sha, steps, trace) && |steps| == 6
    ensures steps[0] == steps[5] == BeginPut(b, m, NIL) && steps[3] == Corrupt(sha(b), x) && steps[4] == Reads(sha(b))
    ensures trace[6].flights == {} && Indexed(trace[6].disk.rows, sha(b)) && Read(sha, trace[6].disk, sha(b)) == Missing
  {
    var h := sha(b);
    steps, trace := PutOnce(sha, b, m);
    var d := trace[3].disk;
    CorruptedThenRead(sha, b, x, m, d);
    steps, trace := OneStep(sha, steps, trace, Corrupt(h, x));
    steps, trace := OneStep(sha, steps, trace, Reads(h));
    var after := trace[5];
    assert after == Store(AfterRead(sha, d.(payloads := d.payloads[h := x]), h), {}, None);
    assert Indexed(after.disk.rows, h);
    steps, trace := OneStep(sha, steps, trace, BeginPut(b, m, NIL));
    assert trace[6] == after;
  }
}
