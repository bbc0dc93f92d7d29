/** The writing session of `Store` as an object. */
module Stores {
  // The embed loop and the methods that update the in-memory index, the staged vectors and the
  // database, each tied to the step of the vector store that it performs.
  import opened Common
  import opened VectorIndexes
  import opened VectorStore
  import opened IndexRuns

  class Store<V(==)> {
    // Durable state: the database and the index file.
    var rows: Rows
    var floor: nat
    var file: Option<map<nat, V>>
    // What the process holds.
    var hnsw: VectorIndex<V>
    var hnswDirty: bool
    var stagedVectors: map<Key, nat>
    var pending: seq<Pending>
    var superseded: set<string>

    ghost predicate Valid()
      reads this, hnsw
    {
      !hnsw.readOnly
    }

    ghost function Session(): Session<V>
      reads this, hnsw
    {
      VectorStore.Session(hnsw.State(), hnswDirty, stagedVectors, pending, superseded)
    }

    ghost function World(): World<V>
      reads this, hnsw
    {
      VectorStore.World(rows, floor, file, Some(Session()))
    }

    constructor Open(rows: Rows, floor: nat, file: Option<map<nat, V>>, readable: bool)
      ensures Valid() && fresh(hnsw)
      ensures World() == Next(VectorStore.World(rows, floor, file, None), VectorStore.Open(readable))
    {
      this.rows, this.floor, this.file := rows, floor, file;
      var index := new VectorIndex(if file.Some? && readable then file.value else map[], false);
      this.hnsw := index;
      this.hnswDirty, this.stagedVectors, this.pending, this.superseded := false, map[], [], {};
      new;
      var ceiling := VidCeiling();
      hnsw.EnsureNextVidAtLeast(ceiling);
      hnsw.EnsureNextVidAtLeast(floor);
    }

    /** `max_vector_vid` plus one, or 0 when there are no rows. */
    method VidCeiling() returns (c: nat)
      ensures c == Ceiling(RowVids(rows))
    {
      c := 0;
      var ids := rows.Keys;
      while ids != {}
        invariant ids <= rows.Keys
        invariant forall id | id in rows && id !in ids :: rows[id].vid < c
        invariant c == 0 || c - 1 in RowVids(rows)
        decreases |ids|
      {
        var id :| id in ids;
        ids := ids - {id};
        if c <= rows[id].vid {
          c := rows[id].vid + 1;
        }
      }
      forall v | v in RowVids(rows) ensures v < c {
        var id :| id in rows && rows[id].vid == v;
      }
    }

    /** `SELECT MIN(vid)` over the rows of a key. */
    method ReusableVid(key: Key) returns (r: Option<nat>)
      ensures r.None? <==> StoredVids(rows, key) == {}
      ensures r.Some? ==> StoredVid(rows, key, r.value)
    {
      r := None;
      var ids := rows.Keys;
      while ids != {}
        invariant ids <= rows.Keys
        invariant r.None? ==> forall id | id in rows && id !in ids :: Identity(rows[id]) != Some(key)
        invariant r.Some? ==> r.value in StoredVids(rows, key)
        invariant r.Some? ==> forall id | id in rows && id !in ids && Identity(rows[id]) == Some(key) :: r.value <= rows[id].vid
        decreases |ids|
      {
        var id :| id in ids;
        ids := ids - {id};
        if Identity(rows[id]) == Some(key) && (r.None? || rows[id].vid < r.value) {
          r := Some(rows[id].vid);
        }
      }
      if r.None? {
        assert forall v :: v !in StoredVids(rows, key);
      }
    }

    method ReusableVector(key: Key) returns (r: Option<V>)
      ensures r == Reusable(Session(), rows, key)
    {
      if key in stagedVectors && stagedVectors[key] in hnsw.inner {
        return Some(hnsw.inner[stagedVectors[key]]);
      }
      var vid := ReusableVid(key);
      if vid.Some? && vid.value in hnsw.inner {
        return Some(hnsw.inner[vid.value]);
      }
      return None;
    }

    method ReusableVectors(keys: seq<Key>) returns (slots: seq<Option<V>>)
      ensures slots == Slots(Session(), rows, keys)
    {
      slots := [];
      for i := 0 to |keys|
        invariant slots == Slots(Session(), rows, keys)[..i]
      {
        var slot := ReusableVector(keys[i]);
        slots := slots + [slot];
      }
    }

    method MissingKeys(slots: seq<Option<V>>, keys: seq<Key>) returns (missing: seq<Key>)
      requires |slots| == |keys|
      ensures missing == Missing(slots, keys)
    {
      missing := [];
      for i := 0 to |slots|
        invariant missing + Missing(slots[i..], keys[i..]) == Missing(slots, keys)
      {
        if slots[i].None? {
          missing := missing + [keys[i]];
        }
      }
    }

    method FillSlots(slots: seq<Option<V>>, encoded: seq<V>, ghost keys: seq<Key>) returns (vectors: seq<V>)
      requires |slots| == |keys| && |encoded| == |Missing(slots, keys)|
      ensures vectors == Fill(slots, encoded)
    {
      vectors := [];
      var next := 0;
      for i := 0 to |slots|
        invariant next <= |encoded| && |encoded| - next == |Missing(slots[i..], keys[i..])|
        invariant vectors + Fill(slots[i..], encoded[next..]) == Fill(slots, encoded)
      {
        if slots[i].Some? {
          vectors := vectors + [slots[i].value];
        } else {
          vectors := vectors + [encoded[next]];
          next := next + 1;
        }
      }
    }

    method EmbedPassagesReusing(keys: seq<Key>, backend: Backend<V>) returns (r: Option<seq<V>>)
      ensures r == EmbedPassages(Session(), rows, keys, backend)
    {
      var slots := ReusableVectors(keys);
      var missing := MissingKeys(slots, keys);
      var encoded: seq<V> := [];
      if missing != [] {
        var answer := backend(missing);
        if answer.None? || |answer.value| != |missing| {
          return None;
        }
        encoded := answer.value;
      }
      var vectors := FillSlots(slots, encoded, keys);
      return Some(vectors);
    }

    method EvictHnswVectors(vids: set<nat>)
      requires Valid()
      modifies this`hnswDirty, hnsw
      ensures Valid() && Session() == Evict(old(Session()), vids)
    {
      if vids == {} {
        return;
      }
      var left := vids;
      while left != {}
        invariant hnsw.inner - left == old(hnsw.inner) - vids && hnsw.nextVid == old(hnsw.nextVid)
        decreases |left|
      {
        var vid :| vid in left;
        RemovalsCommute(hnsw.inner, left, vid);
        var _ := hnsw.Remove(vid);
        left := left - {vid};
      }
      assert hnsw.inner - {} == hnsw.inner;
      hnswDirty := true;
    }

    method VidsForHash(hash: string) returns (vids: set<nat>)
      ensures vids == VidsOf(rows, hash)
    {
      vids := set id | id in rows && id.hash == hash :: rows[id].vid;
    }

    method StageVids(keys: seq<Key>, vids: seq<nat>)
      requires |keys| == |vids|
      modifies this`stagedVectors
      ensures stagedVectors == Stage(old(stagedVectors), keys, vids)
    {
      for i := 0 to |keys|
        invariant Stage(stagedVectors, keys[i..], vids[i..]) == Stage(old(stagedVectors), keys, vids)
      {
        if keys[i] !in stagedVectors {
          stagedVectors := stagedVectors[keys[i] := vids[i]];
        }
      }
    }

    /** `embed_document_chunks` and what `embed_docs` does with its result. */
    method EmbedDocumentChunks(hash: string, keys: seq<Key>, backend: Backend<V>, faults: seq<set<nat>>) returns (ok: bool)
      requires Valid()
      modifies this`hnswDirty, this`stagedVectors, this`pending, this`superseded, hnsw
      ensures Valid()
      ensures Session() == EmbedDocument(old(Session()), rows, hash, keys, backend, faults)
      ensures !ok ==> hnsw.inner == old(hnsw.inner) && pending == old(pending) && superseded == old(superseded)
    {
      var vectors := EmbedPassagesReusing(keys, backend);
      if vectors.None? {
        return false;
      }
      AddAllIsAllOrNothing(hnsw.State(), vectors.value, faults);
      var vids := hnsw.AddAllOrRollback(vectors.value, faults);
      if vids.None? {
        return false;
      }
      hnswDirty := true;
      StageVids(keys, vids.value);
      var stale := VidsForHash(hash);
      if stale != {} {
        EvictHnswVectors(stale);
        superseded := superseded + {hash};
      }
      pending := pending + PendingRows(hash, keys, vids.value);
      assert hnsw.inner - {} == hnsw.inner;
      return true;
    }

    method Flush(outcome: SaveOutcome) returns (ok: bool)
      modifies this`file, this`hnswDirty
      ensures World() == VectorStore.Flush(old(World()), outcome)
      ensures ok <==> !old(hnswDirty) || outcome.Saved?
      ensures ok ==> !hnswDirty
    {
      if !hnswDirty {
        return true;
      }
      if !outcome.FailedBeforeRename? {
        file := Some(hnsw.inner);
      }
      if outcome.Saved? {
        hnswDirty := false;
      }
      return outcome.Saved?;
    }

    /** `checkpoint`: nothing happens when nothing is pending; otherwise the rows are written only
        after the index file is saved, and a conflict rolls the transaction back. */
    method Checkpoint(outcome: SaveOutcome) returns (ok: bool)
      modifies this`file, this`hnswDirty, this`rows, this`floor, this`stagedVectors, this`pending, this`superseded
      ensures World() == if old(pending) == [] && old(superseded) == {} then old(World())
                         else Next(Next(old(World()), Save(outcome)), Commit)
      ensures old(pending) == [] && old(superseded) == {} ==> ok
      ensures old(hnswDirty) && !outcome.Saved? ==> rows == old(rows) && floor == old(floor)
      ensures old(hnswDirty) && !outcome.Saved? && (old(pending) != [] || old(superseded) != {}) ==> !ok
    {
      if pending == [] && superseded == {} {
        return true;
      }
      var saved := Flush(outcome);
      if !saved {
        return false;
      }
      var table := UpsertPending(DeleteHashes(rows, superseded));
      if table.None? {
        return false;
      }
      rows := table.value;
      floor := Max(floor, hnsw.nextVid);
      stagedVectors, pending, superseded := map[], [], {};
      return true;
    }

    method UpsertPending(start: Rows) returns (r: Option<Rows>)
      ensures r == UpsertAll(start, pending)
    {
      var table := start;
      for i := 0 to |pending|
        invariant UpsertAll(table, pending[i..]) == UpsertAll(start, pending)
      {
        var p := pending[i];
        if exists id :: id in table && id != p.id && table[id].vid == p.row.vid {
          return None;
        }
        table := table[p.id := p.row];
      }
      return Some(table);
    }

    /** `upsert_vector_meta`. */
    method UpsertVectorMeta(id: ChunkId, model: string, vid: nat) returns (ok: bool)
      modifies this`rows
      ensures var r := UpsertMeta(old(rows), id, model, vid);
              ok == r.Some? && rows == if ok then r.value else old(rows)
    {
      if exists other :: other in rows && other != id && rows[other].vid == vid {
        return false;
      }
      rows := rows[id := Row(if id in rows then rows[id].stored else None, model, vid)];
      return true;
    }

    /** `set_vector_identity`: a row that is not there stays so. */
    method SetVectorIdentity(id: ChunkId, key: Key)
      modifies this`rows
      ensures rows == SetIdentity(old(rows), id, key)
    {
      if id in rows {
        rows := rows[id := rows[id].(stored := Some(key))];
      }
    }

    /** One round of the loop of `index_document`. */
    method IndexChunk(id: ChunkId, key: Key, vector: V, faults: set<nat>, cut: Cut) returns (ok: bool)
      requires Valid()
      modifies this`rows, this`hnswDirty, hnsw
      ensures Valid() && (World(), ok) == IndexRuns.IndexChunk(old(World()), id, key, vector, faults, cut)
      ensures ok ==> id in rows && Identity(rows[id]) == Some(key) && rows == old(rows)[id := rows[id]]
    {
      var added := hnsw.Add(vector, faults);
      if !added.Added? {
        return false;
      }
      hnswDirty := true;
      if cut.NoRow? {
        return false;
      }
      ok := UpsertVectorMeta(id, key.model, added.vid);
      if !ok || cut.NoIdentity? {
        return false;
      }
      SetVectorIdentity(id, key);
    }

    /** The chunks of `index_document`: each row is committed as soon as its vector is added. */
    method IndexDocument(hash: string, keys: seq<Key>, backend: Backend<V>, faults: seq<set<nat>>, cuts: seq<Cut>)
      returns (ok: bool)
      requires Valid()
      modifies this`rows, this`hnswDirty, hnsw
      ensures Valid()
      ensures World() == IndexRuns.IndexDocument(old(World()), hash, keys, backend, faults, cuts, |keys|)
      ensures ok ==> HasRows(rows, hash, keys, |keys|)
    {
      var vectors := EmbedPassagesReusing(keys, backend);
      if vectors.None? {
        return false;
      }
      for i := 0 to |keys|
        invariant Valid()
        invariant HasRows(rows, hash, keys, i)
        invariant IndexChunks(World(), hash, keys, vectors.value, faults, cuts, i, |keys|)
               == IndexChunks(old(World()), hash, keys, vectors.value, faults, cuts, 0, |keys|)
      {
        ghost var before := rows;
        var indexed := IndexChunk(ChunkId(hash, i), keys[i], vectors.value[i], FaultsAt(faults, i), CutAt(cuts, i));
        if !indexed {
          return false;
        }
        OneMoreRow(before, hash, keys, i, rows[ChunkId(hash, i)]);
      }
      return true;
    }
  }

  /** The first `n` chunks of a document have rows, each with its own key. */
  ghost predicate HasRows(rows: Rows, hash: string, keys: seq<Key>, n: nat)
    requires n <= |keys|
  {
    forall i: nat | i < n :: ChunkId(hash, i) in rows && Identity(rows[ChunkId(hash, i)]) == Some(keys[i])
  }

  lemma OneMoreRow(rows: Rows, hash: string, keys: seq<Key>, n: nat, row: Row)
    requires n < |keys| && HasRows(rows, hash, keys, n) && Identity(row) == Some(keys[n])
    ensures HasRows(rows[ChunkId(hash, n) := row], hash, keys, n + 1)
  {
  }

  lemma RemovalsCommute<V>(entries: map<nat, V>, left: set<nat>, vid: nat)
    requires vid in left
    ensures (entries - {vid}) - (left - {vid}) == entries - left
  {
  }
}
