/** The content-addressed artifact store: payload files, manifests, quarantine and the index
    database (core/artifacts/artifact_store.cpp, core/storage/metadata_db.cpp). */
module ArtifactStores {
  import opened Wrappers
  import opened Collections
  import opened LittleEndian

  type Bytes = seq<byte>

  type Hash = string

  type Uuid = string

  const NIL: Uuid := ""

  /** A manifest: its own id, the payload's hash and size, and everything else it says. */
  datatype Manifest = Manifest(uuid: Uuid, hash: Hash, size: nat, details: string)

  datatype Row = Row(hash: Hash, size: nat, details: string, degraded: bool)

  /** What survives a crash. Quarantine holds the corrupt payload of a hash. */
  datatype Disk = Disk(payloads: map<Hash, Bytes>, manifests: map<Uuid, Manifest>, rows: map<Uuid, Row>,
                       quarantine: map<Hash, Bytes>)

  // --------------------------------------------------------------------------- the index

  ghost predicate Indexed(rows: map<Uuid, Row>, h: Hash) {
    exists u :: u in rows && rows[u].hash == h
  }

  /** The UNIQUE constraint on the hash column. */
  ghost predicate UniqueHashes(rows: map<Uuid, Row>) {
    forall u, v :: u in rows && v in rows && rows[u].hash == rows[v].hash ==> u == v
  }

  /** INSERT OR REPLACE: rows with the same id or the same hash give way. */
  function Upsert(rows: map<Uuid, Row>, id: Uuid, row: Row): (r: map<Uuid, Row>)
    ensures id in r && r[id] == row
    ensures UniqueHashes(rows) ==> UniqueHashes(r)
  {
    (map v | v in rows && v != id && rows[v].hash != row.hash :: rows[v])[id := row]
  }

  /** Which hashes an upsert leaves indexed. */
  lemma UpsertIndexes(rows: map<Uuid, Row>, id: Uuid, row: Row, h: Hash)
    requires UniqueHashes(rows)
    ensures Indexed(Upsert(rows, id, row), h)
            <==> h == row.hash || (Indexed(rows, h) && !(id in rows && rows[id].hash == h))
  {
    var after := Upsert(rows, id, row);
    if h == row.hash {
      assert after[id].hash == h;
    } else {
      if Indexed(rows, h) && !(id in rows && rows[id].hash == h) {
        var u :| u in rows && rows[u].hash == h;
        assert u in after && after[u].hash == h;
      }
      forall u | u in after && after[u].hash == h
        ensures u in rows && rows[u].hash == h && u != id
      {
      }
    }
  }

  function Degraded(rows: map<Uuid, Row>, h: Hash): (r: map<Uuid, Row>)
    ensures r.Keys == rows.Keys && forall u :: u in rows ==> r[u].hash == rows[u].hash
  {
    map u | u in rows :: if rows[u].hash == h then rows[u].(degraded := true) else rows[u]
  }

  // ------------------------------------------------------------------- the durable writes

  function RowOf(m: Manifest): Row {
    Row(m.hash, m.size, m.details, false)
  }

  /** A payload is written only when no file of that name exists. */
  function WithPayload(d: Disk, h: Hash, b: Bytes): Disk {
    if h in d.payloads then d else d.(payloads := d.payloads[h := b])
  }

  function WithManifest(d: Disk, m: Manifest): Disk {
    d.(manifests := d.manifests[m.uuid := m])
  }

  function WithRow(d: Disk, m: Manifest): Disk {
    d.(rows := Upsert(d.rows, m.uuid, RowOf(m)))
  }

  /** The corrupt payload is moved aside unless an earlier one lies there already. */
  function Quarantined(d: Disk, h: Hash): Disk
    requires h in d.payloads
  {
    if h in d.quarantine then d
    else d.(payloads := d.payloads - {h}, quarantine := d.quarantine[h := d.payloads[h]])
  }

  /** The manifest as it is recorded. */
  function Stamped(m: Manifest, h: Hash, size: nat, generated: Uuid): Manifest {
    Manifest(if m.uuid != NIL then m.uuid else generated, h, size, m.details)
  }

  /** What a read finds. */
  datatype Outcome = Missing | Found(bytes: Bytes) | Mismatch

  function Read(sha: Bytes -> Hash, d: Disk, h: Hash): Outcome {
    if h !in d.payloads then Missing
    else if sha(d.payloads[h]) == h then Found(d.payloads[h])
    else Mismatch
  }

  function AfterRead(sha: Bytes -> Hash, d: Disk, h: Hash): Disk {
    if Read(sha, d, h) != Mismatch then d
    else
      var q := Quarantined(d, h);
      q.(rows := Degraded(q.rows, h))
  }

  datatype Plan = Plan(payloads: set<Hash>, manifests: set<Uuid>)

  /** What garbage collection would remove. */
  ghost function Garbage(d: Disk): Plan {
    Plan(set h | h in d.payloads && !Indexed(d.rows, h),
         set u | u in d.manifests && !Indexed(d.rows, d.manifests[u].hash))
  }

  function Swept(d: Disk, p: Plan): Disk {
    d.(payloads := d.payloads - p.payloads, manifests := d.manifests - p.manifests)
  }

  // ------------------------------------------------------------------------- the operations

  datatype PutResult = PutResult(hash: Hash, uuid: Uuid, deduplicated: bool)

  class ArtifactStore {
    const sha: Bytes -> Hash
    var payloads: map<Hash, Bytes>
    var manifests: map<Uuid, Manifest>
    var rows: map<Uuid, Row>
    var quarantine: map<Hash, Bytes>

    ghost predicate Valid()
      reads this
    {
      UniqueHashes(rows)
    }

    ghost function View(): Disk
      reads this
    {
      Disk(payloads, manifests, rows, quarantine)
    }

    constructor (digest: Bytes -> Hash)
      ensures Valid() && View() == Disk(map[], map[], map[], map[]) && sha == digest
    {
      sha, payloads, manifests, rows, quarantine := digest, map[], map[], map[], map[];
    }

    method FindArtifactByHash(h: Hash) returns (id: Option<Uuid>)
      ensures id.Some? <==> Indexed(rows, h)
      ensures id.Some? ==> id.value in rows && rows[id.value].hash == h
    {
      var rest := rows.Keys;
      while rest != {}
        invariant forall u :: u in rows && u !in rest ==> rows[u].hash != h
        invariant rest <= rows.Keys
        decreases |rest|
      {
        var u := Pick(rest);
        if rows[u].hash == h {
          return Some(u);
        }
        rest := rest - {u};
      }
      id := None;
    }

    method IsReferenced(h: Hash) returns (b: bool)
      ensures b <==> Indexed(rows, h)
    {
      var id := FindArtifactByHash(h);
      b := id.Some?;
    }

    method Record(m: Manifest)
      requires Valid()
      modifies this
      ensures Valid() && View() == WithRow(WithManifest(old(View()), m), m)
    {
      manifests := manifests[m.uuid := m];
      rows := Upsert(rows, m.uuid, RowOf(m));
    }

    method Put(payload: Bytes, manifest: Manifest, generated: Uuid) returns (r: PutResult)
      requires Valid()
      modifies this
      ensures Valid() && r.hash == sha(payload)
      ensures r.deduplicated <==> Indexed(old(rows), r.hash)
      ensures r.deduplicated ==> View() == old(View()) && r.uuid in rows && rows[r.uuid].hash == r.hash
      ensures !r.deduplicated ==>
                var m := Stamped(manifest, r.hash, |payload|, generated);
                r.uuid == m.uuid && View() == WithRow(WithManifest(WithPayload(old(View()), r.hash, payload), m), m)
      // In full: the manifest and the row say the hash and the size of the bytes given.
      ensures !r.deduplicated ==>
                && r.uuid == (if manifest.uuid != "" then manifest.uuid else generated)
                && manifests == old(manifests)[r.uuid := Manifest(r.uuid, sha(payload), |payload|, manifest.details)]
                && r.uuid in rows && rows[r.uuid] == Row(sha(payload), |payload|, manifest.details, false)
      ensures payloads == if r.deduplicated || sha(payload) in old(payloads) then old(payloads)
                          else old(payloads)[sha(payload) := payload]
      ensures quarantine == old(quarantine)
    {
      var h := sha(payload);
      var existing := FindArtifactByHash(h);
      if existing.Some? {
        return PutResult(h, existing.value, true);
      }
      if h !in payloads {
        payloads := payloads[h := payload];
      }
      var m := Stamped(manifest, h, |payload|, generated);
      Record(m);
      r := PutResult(h, m.uuid, false);
    }

    /** A second instance over a stored payload; none when the payload is missing. */
    method PutInstance(h: Hash, manifest: Manifest, generated: Uuid) returns (r: Option<PutResult>)
      requires Valid()
      modifies this
      ensures Valid() && (r.Some? <==> h in old(payloads))
      ensures r.None? ==> View() == old(View())
      ensures r.Some? ==>
                var m := Stamped(manifest, h, |old(payloads)[h]|, generated);
                r.value == PutResult(h, m.uuid, true) && View() == WithRow(WithManifest(old(View()), m), m)
      ensures r.Some? ==>
                var id, size := r.value.uuid, |old(payloads)[h]|;
                && id == (if manifest.uuid != "" then manifest.uuid else generated)
                && manifests == old(manifests)[id := Manifest(id, h, size, manifest.details)]
                && id in rows && rows[id] == Row(h, size, manifest.details, false)
      ensures payloads == old(payloads) && quarantine == old(quarantine)
    {
      if h !in payloads {
        return None;
      }
      var m := Stamped(manifest, h, |payloads[h]|, generated);
      Record(m);
      r := Some(PutResult(h, m.uuid, true));
    }

    /** Bytes are handed out only when their digest is the hash asked for. */
    method Get(h: Hash) returns (r: Outcome)
      requires Valid()
      modifies this
      ensures Valid() && r == Read(sha, old(View()), h) && View() == AfterRead(sha, old(View()), h)
      ensures r.Missing? <==> h !in old(payloads)
      ensures r.Found? <==> h in old(payloads) && sha(old(payloads)[h]) == h
      ensures r.Found? ==> r.bytes == old(payloads)[h] && sha(r.bytes) == h
      ensures !r.Mismatch? ==> View() == old(View())
      // A payload with another digest is moved aside, once, and its row is marked.
      ensures r.Mismatch? ==>
                && h in quarantine && manifests == old(manifests) && rows.Keys == old(rows).Keys
                && (h !in old(quarantine) ==> payloads == old(payloads) - {h} && quarantine[h] == old(payloads)[h])
                && (h in old(quarantine) ==> payloads == old(payloads) && quarantine == old(quarantine))
                && forall u :: u in rows ==>
                     rows[u] == if old(rows)[u].hash == h then old(rows)[u].(degraded := true) else old(rows)[u]
    {
      if h !in payloads {
        return Missing;
      }
      var bytes := payloads[h];
      if sha(bytes) == h {
        return Found(bytes);
      }
      if h !in quarantine {
        payloads, quarantine := payloads - {h}, quarantine[h := bytes];
      }
      var index := FindArtifactByHash(h);
      if index.Some? {
        rows := Upsert(rows, index.value, rows[index.value].(degraded := true));
      }
      assert rows == Degraded(old(rows), h);
      r := Mismatch;
    }

    method Unreferenced() returns (hs: set<Hash>)
      ensures hs == Garbage(View()).payloads
    {
      hs := {};
      var rest := payloads.Keys;
      while rest != {}
        invariant rest <= payloads.Keys
        invariant hs == set h | h in payloads && h !in rest && !Indexed(rows, h)
        decreases |rest|
      {
        var h := Pick(rest);
        var referenced := IsReferenced(h);
        rest := rest - {h};
        if !referenced {
          hs := hs + {h};
        }
      }
    }

    method Dangling() returns (us: set<Uuid>)
      ensures us == Garbage(View()).manifests
    {
      us := {};
      var rest := manifests.Keys;
      while rest != {}
        invariant rest <= manifests.Keys
        invariant us == set u | u in manifests && u !in rest && !Indexed(rows, manifests[u].hash)
        decreases |rest|
      {
        var u := Pick(rest);
        var referenced := IsReferenced(manifests[u].hash);
        rest := rest - {u};
        if !referenced {
          us := us + {u};
        }
      }
    }

    method RemovePayloads(hashes: set<Hash>)
      modifies this
      ensures View() == old(View()).(payloads := old(payloads) - hashes)
    {
      var hs := hashes;
      while hs != {}
        invariant hs <= hashes && payloads == old(payloads) - (hashes - hs)
        invariant manifests == old(manifests) && rows == old(rows) && quarantine == old(quarantine)
        decreases |hs|
      {
        var h := Pick(hs);
        payloads := payloads - {h};
        hs := hs - {h};
      }
    }

    method RemoveManifests(uuids: set<Uuid>)
      modifies this
      ensures View() == old(View()).(manifests := old(manifests) - uuids)
    {
      var us := uuids;
      while us != {}
        invariant us <= uuids && manifests == old(manifests) - (uuids - us)
        invariant payloads == old(payloads) && rows == old(rows) && quarantine == old(quarantine)
        decreases |us|
      {
        var u := Pick(us);
        manifests := manifests - {u};
        us := us - {u};
      }
    }

    method GarbageCollect(dryRun: bool) returns (plan: Plan)
      requires Valid()
      modifies this
      ensures Valid() && plan == Garbage(old(View()))
      ensures View() == if dryRun then old(View()) else Swept(old(View()), plan)
    {
      var hs := Unreferenced();
      var us := Dangling();
      plan := Plan(hs, us);
      if dryRun {
        return;
      }
      RemovePayloads(hs);
      RemoveManifests(us);
    }
  }

  // -------------------------------------------------------------------------- single calls

  /** After a collection every payload and every manifest left is indexed, nothing indexed is
      gone, and a second plan is empty. */
  lemma CollectionIsComplete(d: Disk)
    ensures var t := Swept(d, Garbage(d));
            && (forall h :: h in t.payloads <==> h in d.payloads && Indexed(d.rows, h))
            && (forall h :: h in t.payloads ==> t.payloads[h] == d.payloads[h])
            && (forall u :: u in t.manifests <==> u in d.manifests && Indexed(d.rows, d.manifests[u].hash))
            && t.rows == d.rows && t.quarantine == d.quarantine
            && Garbage(t) == Plan({}, {})
  {
  }

  /** The disk after an uninterrupted Put. */
  ghost function AfterPut(sha: Bytes -> Hash, d: Disk, b: Bytes, m: Manifest): Disk {
    var h := sha(b);
    if Indexed(d.rows, h) then d
    else WithRow(WithManifest(WithPayload(d, h, b), m), m)
  }

  /** A payload just put can be read back exactly when the file of that name held the same
      bytes before, or there was no such file and no row: a row whose payload is gone, or a
      leftover corrupt file, is not repaired by putting the bytes again. */
  lemma PutThenGet(sha: Bytes -> Hash, d: Disk, b: Bytes, m: Manifest)
    requires m.hash == sha(b)
    ensures Read(sha, AfterPut(sha, d, b, m), sha(b)) == Found(b)
            <==> if sha(b) in d.payloads then d.payloads[sha(b)] == b else !Indexed(d.rows, sha(b))
  {
  }

  /** Reading a corrupt payload and putting the right bytes again leaves the hash unreadable. */
  lemma PutDoesNotHeal(sha: Bytes -> Hash, d: Disk, b: Bytes, m: Manifest)
    requires Read(sha, d, sha(b)) == Mismatch && Indexed(d.rows, sha(b)) && m.hash == sha(b)
    requires sha(b) !in d.quarantine
    ensures Read(sha, AfterPut(sha, AfterRead(sha, d, sha(b)), b, m), sha(b)) == Missing
  {
    var t := AfterRead(sha, d, sha(b));
    var u :| u in d.rows && d.rows[u].hash == sha(b);
    assert u in t.rows && t.rows[u].hash == sha(b);
  }

  /** The disk after PutInstance. */
  function AfterInstance(d: Disk, m: Manifest): Disk {
    WithRow(WithManifest(d, m), m)
  }

  /** The instance already indexed for a hash is promised to stay as it is. It loses its row
      exactly when the new instance has another id; its manifest stays behind. */
  lemma InstanceReplacesRow(d: Disk, u: Uuid, m: Manifest)
    requires UniqueHashes(d.rows) && u in d.rows && d.rows[u].hash == m.hash
    ensures u !in AfterInstance(d, m).rows <==> u != m.uuid
    ensures forall v :: v in AfterInstance(d, m).rows && AfterInstance(d, m).rows[v].hash == m.hash <==> v == m.uuid
    ensures var after := AfterInstance(d, m);
            && (u != m.uuid && u in d.manifests ==> u in after.manifests && after.manifests[u] == d.manifests[u])
            && forall v :: v != m.uuid && v != u ==>
                 (v in after.rows <==> v in d.rows) && (v in d.rows ==> after.rows[v] == d.rows[v])
  {
    forall v | v in d.rows && d.rows[v].hash == m.hash
      ensures v == u
    {
    }
  }
}
