/** What each store step does. */
module StoreLaws {
  // Opening, reusing, staging, saving, evicting and writing rows, each said of the tables, the file
  // and the index directly (store.rs, hnsw.rs, db.rs).
  import opened Common
  import opened VectorIndexes
  import opened VectorStore
  import opened IndexRuns

  // ── Opening ────────────────────────────────────────────────────────────────

  /** A readable file is the index, an unreadable or missing one leaves it empty. The counter is the
      least number that is no less than the number of entries and the floor and above every
      row's vid. */
  lemma OpenIs<V>(w: World<V>, readable: bool)
    requires w.session.None?
    ensures var w' := Next(w, Open(readable));
            && w'.rows == w.rows && w'.floor == w.floor && w'.file == w.file && w'.session.Some?
            && var s := w'.session.value;
            && (w.file.Some? && readable ==> s.index.live == w.file.value)
            && (w.file.None? || !readable ==> s.index.live == map[])
            && !s.dirty && s.staged == map[] && s.pending == [] && s.superseded == {}
            && |s.index.live| <= s.index.nextVid && w.floor <= s.index.nextVid
            && (forall id | id in w.rows :: w.rows[id].vid < s.index.nextVid)
            && (s.index.nextVid == |s.index.live| || s.index.nextVid == w.floor
                || exists id :: id in w.rows && w.rows[id].vid + 1 == s.index.nextVid)
  {
    var c := Ceiling(RowVids(w.rows));
    if c > 0 {
      assert c - 1 in RowVids(w.rows);
      var id :| id in w.rows && w.rows[id].vid == c - 1;
    }
    assert forall id | id in w.rows :: w.rows[id].vid in RowVids(w.rows);
  }

  // ── Allocating ─────────────────────────────────────────────────────────────

  /** With the next `n` vids taken and no failure the add goes through if and only if `n < 1024`. */
  lemma RetriesAreBounded<V>(s: Index<V>, v: V, n: nat)
    requires (forall w | s.nextVid <= w < s.nextVid + n :: w in s.live) && s.nextVid + n !in s.live
    ensures AddFrom(s, v, {}, 0).1 == Added(s.nextVid + n) <==> n < 1024
    ensures n >= 1024 ==> AddFrom(s, v, {}, 0).1 == GaveUp
  {
    AddFindsFirstFree(s, v, {}, 0, s.nextVid + n);
    if n >= 1024 {
      AllTaken(s, v, 0);
    }
  }

  lemma {:induction false} AllTaken<V>(s: Index<V>, v: V, attempt: nat)
    requires attempt <= 1024 && forall w | s.nextVid <= w < s.nextVid + (1024 - attempt) :: w in s.live
    ensures AddFrom(s, v, {}, attempt).1 == GaveUp
    decreases 1024 - attempt
  {
    if attempt < 1024 {
      AllTaken(s.(nextVid := s.nextVid + 1), v, attempt + 1);
    }
  }

  // ── Reuse ──────────────────────────────────────────────────────────────────

  /** The row has this key, recorded under the key's own model. */
  predicate HasKey(row: Row, key: Key) {
    row.stored == Some(key) && row.model == key.model
  }

  /** The lowest vid of the rows with the key. */
  ghost predicate LowestVid(rows: Rows, key: Key, vid: nat) {
    && (exists id :: id in rows && HasKey(rows[id], key) && rows[id].vid == vid)
    && (forall id | id in rows && HasKey(rows[id], key) :: vid <= rows[id].vid)
  }

  lemma LowestIsStored(rows: Rows, key: Key, vid: nat)
    ensures LowestVid(rows, key, vid) <==> StoredVid(rows, key, vid)
  {
    forall id | id in rows
      ensures HasKey(rows[id], key) <==> Identity(rows[id]) == Some(key)
    {
    }
    if id :| id in rows && HasKey(rows[id], key) && rows[id].vid == vid {
      assert rows[id].vid in StoredVids(rows, key);
    }
    if LowestVid(rows, key, vid) {
      forall v | v in StoredVids(rows, key)
        ensures vid <= v
      {
        var id :| id in rows && Identity(rows[id]) == Some(key) && rows[id].vid == v;
      }
    }
    if StoredVid(rows, key, vid) {
      forall id | id in rows && HasKey(rows[id], key)
        ensures vid <= rows[id].vid
      {
        assert rows[id].vid in StoredVids(rows, key);
      }
    }
  }

  /** A chunk takes over the vector staged for its key when the index has it, else the one of the
      lowest vid stored for it when the index has that, and otherwise is encoded. */
  lemma ReusableIs<V>(s: Session<V>, rows: Rows, key: Key)
    ensures key in s.staged && s.staged[key] in s.index.live ==>
              Reusable(s, rows, key) == Some(s.index.live[s.staged[key]])
    ensures forall vid: nat | !(key in s.staged && s.staged[key] in s.index.live) && LowestVid(rows, key, vid) ::
              Reusable(s, rows, key) == if vid in s.index.live then Some(s.index.live[vid]) else None
    ensures !(key in s.staged && s.staged[key] in s.index.live) && (forall id | id in rows :: !HasKey(rows[id], key)) ==>
              Reusable(s, rows, key) == None
  {
    forall vid: nat
      ensures LowestVid(rows, key, vid) <==> StoredVid(rows, key, vid)
    {
      LowestIsStored(rows, key, vid);
    }
    forall a: nat, b: nat | LowestVid(rows, key, a) && LowestVid(rows, key, b)
      ensures a == b
    {
    }
  }

  /** The backend is asked for exactly the keys without a vector, in order; when there are none it is
      not asked at all. */
  lemma {:induction false} MissingAre<V>(slots: seq<Option<V>>, keys: seq<Key>, i: nat)
    requires |slots| == |keys| && i <= |keys|
    ensures Missing(slots, keys) == Missing(slots[..i], keys[..i]) + Missing(slots[i..], keys[i..])
    ensures i < |keys| ==> Missing([slots[i]], [keys[i]]) == if slots[i].Some? then [] else [keys[i]]
  {
    if i == 0 {
      assert slots[0..] == slots && keys[0..] == keys;
    } else {
      MissingAre(slots[1..], keys[1..], i - 1);
      assert slots[..i][1..] == slots[1..][..i - 1] && keys[..i][1..] == keys[1..][..i - 1];
      assert slots[i..] == slots[1..][i - 1..] && keys[i..] == keys[1..][i - 1..];
    }
    if i < |keys| {
      assert [slots[i]][1..] == [] && [keys[i]][1..] == [];
    }
  }

  lemma {:induction false} NothingMissing<V>(slots: seq<Option<V>>, keys: seq<Key>)
    requires |slots| == |keys| && forall i | 0 <= i < |slots| :: slots[i].Some?
    ensures Missing(slots, keys) == []
  {
    if slots != [] {
      NothingMissing(slots[1..], keys[1..]);
    }
  }

  lemma ReuseNeedsNoBackend<V>(s: Session<V>, rows: Rows, keys: seq<Key>, backend: Backend<V>)
    requires forall i | 0 <= i < |keys| :: Reusable(s, rows, keys[i]).Some?
    ensures EmbedPassages(s, rows, keys, backend).Some?
  {
    NothingMissing(Slots(s, rows, keys), keys);
  }

  /** Staging keeps the vid a key has and gives every other key the one of its first chunk. */
  lemma {:induction false} StageIs(staged: map<Key, nat>, keys: seq<Key>, vids: seq<nat>, key: Key)
    requires |keys| == |vids|
    ensures var after := Stage(staged, keys, vids);
            && (key in after <==> key in staged || key in keys)
            && (key in staged ==> after[key] == staged[key])
            && (forall i | 0 <= i < |keys| && keys[i] == key && key !in staged && key !in keys[..i] ::
                  key in after && after[key] == vids[i])
    decreases |keys|
  {
    if keys != [] {
      var first := if keys[0] in staged then staged else staged[keys[0] := vids[0]];
      StageIs(first, keys[1..], vids[1..], key);
      assert keys == [keys[0]] + keys[1..];
      forall i | 0 < i < |keys| && key !in keys[..i]
        ensures keys[1..][i - 1] == keys[i] && vids[1..][i - 1] == vids[i] && key !in keys[1..][..i - 1] && key != keys[0]
      {
        assert keys[..i] == [keys[0]] + keys[1..][..i - 1];
      }
    }
  }

  // ── Saving and evicting ────────────────────────────────────────────────────

  /** A save writes the index when there is something to write; it counts as written only when
      nothing failed, not even after the rename. */
  lemma SaveIs<V>(w: World<V>, outcome: SaveOutcome)
    requires w.session.Some?
    ensures var w' := Next(w, Save(outcome));
            && w'.rows == w.rows && w'.floor == w.floor && w'.session.Some?
            && w'.session.value == w.session.value.(dirty := w.session.value.dirty && outcome != Saved)
            && w'.file == if w.session.value.dirty && outcome != FailedBeforeRename then Some(w.session.value.index.live) else w.file
  {
  }

  /** An eviction takes exactly the vids and leaves something to save. */
  lemma EvictIs<V>(w: World<V>, vids: set<nat>)
    requires w.session.Some? && vids != {}
    ensures var w', s := Next(w, EvictVids(vids)), w.session.value;
            && w' == w.(session := w'.session)
            && w'.session == Some(s.(index := Index(s.index.live - vids, s.index.nextVid), dirty := true))
  {
  }

  lemma OtherStepsAre<V>(w: World<V>, ids: set<ChunkId>)
    ensures Next(w, DeleteRows(ids)) == w.(rows := w.rows - ids)
    ensures Next(w, RemoveFile).file == if w.session.None? then None else w.file
    ensures Next(w, Crash) == w.(session := None)
  {
  }

  // ── Rows ───────────────────────────────────────────────────────────────────

  /** A row is written if and only if no other row has its vid, in either way of writing. */
  lemma VidsAreUnique(rows: Rows, p: Pending)
    ensures UpsertAll(rows, [p]).Some? <==> forall id | id in rows && id != p.id :: rows[id].vid != p.row.vid
    ensures UpsertMeta(rows, p.id, p.row.model, p.row.vid).Some? <==> forall id | id in rows && id != p.id :: rows[id].vid != p.row.vid
  {
    assert UpsertAll(rows[p.id := p.row], [p][1..]) == Some(rows[p.id := p.row]);
  }

  /** Evicting what a document's old rows hold: none of their vids is left in the index. */
  lemma OldVidsAreEvicted<V(!new)>(encode: Key -> V, w: World<V>, hash: string, keys: seq<Key>, backend: Backend<V>,
                                   faults: seq<set<nat>>, id: ChunkId)
    requires w.session.Some? && Inv(encode, w) && id in w.rows && id.hash == hash
    requires EmbedPassages(w.session.value, w.rows, keys, backend).Some?
    requires AddAll(w.session.value.index, EmbedPassages(w.session.value, w.rows, keys, backend).value, faults).1.Some?
    ensures w.rows[id].vid !in EmbedDocument(w.session.value, w.rows, hash, keys, backend, faults).index.live
  {
    assert w.rows[id].vid in VidsOf(w.rows, hash);
  }
}
