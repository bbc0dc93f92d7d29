/** What checkpoints write. */
module Checkpoints {
  // After a save and a commit every document embedded before has its rows and vectors, one row a
  // chunk, and nothing else of the table changes (the checkpoint of `rqmd embed`).
  import opened Common
  import opened VectorIndexes
  import opened VectorStore

  // ── The transaction ────────────────────────────────────────────────────────

  /** The row that the last pending entry for `id` asks for. */
  function Latest(pending: seq<Pending>, id: ChunkId): Option<Row> {
    if pending == [] then None
    else
      var later := Latest(pending[1..], id);
      if later.Some? then later else if pending[0].id == id then Some(pending[0].row) else None
  }

  lemma {:induction false} LatestConcat(a: seq<Pending>, b: seq<Pending>, id: ChunkId)
    ensures Latest(a + b, id) == if Latest(b, id).Some? then Latest(b, id) else Latest(a, id)
  {
    if a == [] {
      assert a + b == b;
    } else {
      assert (a + b)[1..] == a[1..] + b && (a + b)[0] == a[0];
      LatestConcat(a[1..], b, id);
    }
  }

  lemma {:induction false} LatestIsPending(pending: seq<Pending>, id: ChunkId)
    ensures Latest(pending, id).Some? <==> exists p :: p in pending && p.id == id
    ensures Latest(pending, id).Some? ==> Pending(id, Latest(pending, id).value) in pending
  {
    if pending != [] {
      LatestIsPending(pending[1..], id);
      assert pending == [pending[0]] + pending[1..];
      assert forall p :: p in pending <==> p == pending[0] || p in pending[1..];
    }
  }

  lemma {:induction false} UpsertWrites(rows: Rows, pending: seq<Pending>, id: ChunkId)
    requires UpsertAll(rows, pending).Some?
    ensures var after, latest := UpsertAll(rows, pending).value, Latest(pending, id);
            && (id in after <==> latest.Some? || id in rows)
            && (id in after ==> after[id] == if latest.Some? then latest.value else rows[id])
    decreases |pending|
  {
    if pending != [] {
      UpsertWrites(rows[pending[0].id := pending[0].row], pending[1..], id);
    }
  }

  /** The rows a commit leaves are those the pending entries ask for, and of the others exactly
      those whose hash is not superseded, as they were. Nothing stays pending. */
  lemma CommitWrites<V>(encode: Key -> V, w: World<V>, id: ChunkId)
    requires w.session.Some? && !w.session.value.dirty && Inv(encode, w)
    ensures var w', s := Next(w, Commit), w.session.value;
            var latest := Latest(s.pending, id);
            && (id in w'.rows <==> latest.Some? || (id in w.rows && id.hash !in s.superseded))
            && (id in w'.rows ==> w'.rows[id] == if latest.Some? then latest.value else w.rows[id])
            && w'.file == w.file && w'.floor >= w.floor && w'.floor >= s.index.nextVid
            && w'.session == Some(Session(s.index, false, map[], [], {}))
  {
    var s := w.session.value;
    CommitKeepsInv(encode, w);
    UpsertWrites(DeleteHashes(w.rows, s.superseded), s.pending, id);
  }

  // ── One document ───────────────────────────────────────────────────────────

  /** The embedding of a document went through: its chunks wait for the checkpoint. */
  ghost predicate Embeds<V>(w: World<V>, step: Step<V>) {
    && step.Embed? && w.session.Some?
    && EmbedPassages(w.session.value, w.rows, step.keys, step.backend).Some?
    && AddAll(w.session.value.index, EmbedPassages(w.session.value, w.rows, step.keys, step.backend).value, step.faults).1.Some?
  }

  /** The backend answers every batch in full. */
  ghost predicate Answers<V(!new)>(backend: Backend<V>) {
    forall keys: seq<Key> :: backend(keys).Some? && |backend(keys).value| == |keys|
  }

  /** It does go through when the backend answers and no add fails, unless the index holds vids a
      thousand or more above the counter. */
  lemma EmbeddingGoesThrough<V(!new)>(w: World<V>, hash: string, keys: seq<Key>, backend: Backend<V>)
    requires w.session.Some? && Answers(backend)
    requires forall vid | vid in w.session.value.index.live :: vid < w.session.value.index.nextVid + MAX_COLLISION_RETRIES - 1
    ensures Embeds(w, Embed(hash, keys, backend, []))
  {
    var r := EmbedPassages(w.session.value, w.rows, keys, backend);
    AddRestSucceeds(w.session.value.index, r.value, []);
  }

  lemma {:induction false} AddSucceeds<V>(s: Index<V>, v: V, attempt: nat)
    requires attempt < MAX_COLLISION_RETRIES
    requires forall vid | vid in s.live :: vid + attempt < s.nextVid + MAX_COLLISION_RETRIES - 1
    ensures AddFrom(s, v, {}, attempt).1.Added?
    decreases MAX_COLLISION_RETRIES - attempt
  {
    if s.nextVid in s.live {
      AddSucceeds(s.(nextVid := s.nextVid + 1), v, attempt + 1);
    }
  }

  lemma {:induction false} AddRestSucceeds<V>(s: Index<V>, vs: seq<V>, vids: seq<nat>)
    requires |vids| <= |vs|
    requires forall vid | vid in s.live :: vid < s.nextVid + MAX_COLLISION_RETRIES - 1
    ensures AddRest(s, vs, [], vids).1.Some?
    decreases |vs| - |vids|
  {
    if |vids| < |vs| {
      var (s', r) := AddFrom(s, vs[|vids|], {}, 0);
      AddSucceeds(s, vs[|vids|], 0);
      AddFindsFirstFree(s, vs[|vids|], {}, 0, r.vid);
      AddRestSucceeds(s', vs, vids + [r.vid]);
    }
  }

  /** Chunk `i` of the document waits under a vid that the index holds. */
  ghost predicate Waits<V>(s: Session<V>, hash: string, keys: seq<Key>, i: nat)
    requires i < |keys|
  {
    var latest := Latest(s.pending, ChunkId(hash, i));
    latest.Some? && latest.value == RowOf(keys[i], latest.value.vid) && latest.value.vid in s.index.live
  }

  /** All chunks of the document wait, and no others of its hash. */
  ghost predicate AllWait<V>(s: Session<V>, hash: string, keys: seq<Key>) {
    && s.dirty
    && (forall i: nat | i < |keys| :: Waits(s, hash, keys, i))
    && (forall p | p in s.pending && p.id.hash == hash :: p.id.ordinal < |keys|)
  }

  lemma {:induction false} LatestOfRows(hash: string, keys: seq<Key>, vids: seq<nat>, from: nat, i: nat)
    requires |keys| == |vids| && from <= i < |keys|
    ensures Latest(PendingRows(hash, keys, vids)[from..], ChunkId(hash, i)) == Some(RowOf(keys[i], vids[i]))
    decreases |keys| - from
  {
    var rows := PendingRows(hash, keys, vids)[from..];
    assert rows[1..] == PendingRows(hash, keys, vids)[from + 1..];
    if from < i {
      LatestOfRows(hash, keys, vids, from + 1, i);
    } else {
      LatestIsPending(rows[1..], ChunkId(hash, i));
    }
  }

  lemma EmbeddedWaits<V(!new)>(encode: Key -> V, w: World<V>, hash: string, keys: seq<Key>, backend: Backend<V>, faults: seq<set<nat>>)
    requires w.session.Some? && Inv(encode, w) && Honest(encode, backend)
    requires Embeds(w, Embed(hash, keys, backend, faults))
    requires forall p | p in w.session.value.pending :: p.id.hash != hash
    ensures var s' := EmbedDocument(w.session.value, w.rows, hash, keys, backend, faults);
            && AllWait(s', hash, keys)
            && ((exists id :: id in w.rows && id.hash == hash) ==> hash in s'.superseded)
            && w.session.value.superseded <= s'.superseded <= w.session.value.superseded + {hash}
  {
    var s := w.session.value;
    var vectors := EmbedPassages(s, w.rows, keys, backend).value;
    AddAllIsAllOrNothing(s.index, vectors, faults);
    var (index, vids) := AddAll(s.index, vectors, faults);
    var s' := EmbedDocument(s, w.rows, hash, keys, backend, faults);
    var added := PendingRows(hash, keys, vids.value);
    forall i: nat | i < |keys|
      ensures Waits(s', hash, keys, i)
    {
      LatestConcat(s.pending, added, ChunkId(hash, i));
      LatestOfRows(hash, keys, vids.value, 0, i);
      assert added[0..] == added;
      NewVidIsKept(encode, w, hash, index, vectors, vids.value, i);
    }
    if id :| id in w.rows && id.hash == hash {
      assert w.rows[id].vid in VidsOf(w.rows, hash);
    }
  }

  lemma NewVidIsKept<V>(encode: Key -> V, w: World<V>, hash: string, index: Index<V>, vectors: seq<V>, vids: seq<nat>, i: nat)
    requires w.session.Some? && Inv(encode, w) && Grown(w.session.value.index, index, vectors, vids) && i < |vids|
    ensures vids[i] in index.live - VidsOf(w.rows, hash)
  {
  }

  /** Embedding another document leaves the chunks waiting. */
  lemma OtherEmbedKeeps<V(!new)>(encode: Key -> V, w: World<V>, step: Step<V>, hash: string, keys: seq<Key>)
    requires w.session.Some? && Inv(encode, w) && HonestStep(encode, step)
    requires step.Embed? && step.hash != hash && AllWait(w.session.value, hash, keys)
    ensures var w' := Next(w, step);
            && w'.session.Some? && AllWait(w'.session.value, hash, keys)
            && w'.rows == w.rows && w.session.value.superseded <= w'.session.value.superseded
  {
    var s := w.session.value;
    var s' := EmbedDocument(s, w.rows, step.hash, step.keys, step.backend, step.faults);
    var vectors := EmbedPassages(s, w.rows, step.keys, step.backend);
    assert forall i: nat | i < |keys| :: Waits(s, hash, keys, i);
    if vectors.Some? {
      AddAllIsAllOrNothing(s.index, vectors.value, step.faults);
      var (index, vids) := AddAll(s.index, vectors.value, step.faults);
      if vids.None? {
        forall i: nat | i < |keys|
          ensures Waits(s', hash, keys, i)
        {
          assert Waits(s, hash, keys, i);
        }
      } else {
        var added := PendingRows(step.hash, step.keys, vids.value);
        forall i: nat | i < |keys|
          ensures Waits(s', hash, keys, i)
        {
          assert Waits(s, hash, keys, i);
          LatestConcat(s.pending, added, ChunkId(hash, i));
          LatestIsPending(added, ChunkId(hash, i));
          LatestIsPending(s.pending, ChunkId(hash, i));
          PendingIsKept(w, step.hash, index, vectors.value, vids.value, Pending(ChunkId(hash, i), Latest(s.pending, ChunkId(hash, i)).value));
        }
      }
    }
  }

  lemma PendingIsKept<V>(w: World<V>, hash: string, index: Index<V>, vectors: seq<V>, vids: seq<nat>, p: Pending)
    requires w.session.Some? && PendingFresh(w.session.value, w.rows)
    requires Grown(w.session.value.index, index, vectors, vids)
    requires p in w.session.value.pending && p.row.vid in w.session.value.index.live
    ensures p.row.vid in index.live - VidsOf(w.rows, hash)
  {
    var i :| 0 <= i < |w.session.value.pending| && w.session.value.pending[i] == p;
    assert forall id | id in w.rows :: w.rows[id].vid != w.session.value.pending[i].row.vid;
  }

  lemma {:induction false} OtherEmbedsKeep<V(!new)>(encode: Key -> V, w: World<V>, steps: seq<Step<V>>, hash: string, keys: seq<Key>)
    requires w.session.Some? && Inv(encode, w) && AllWait(w.session.value, hash, keys)
    requires forall step | step in steps :: HonestStep(encode, step) && step.Embed? && step.hash != hash
    ensures var w' := Run(w, steps);
            && w'.session.Some? && Inv(encode, w') && AllWait(w'.session.value, hash, keys)
            && w'.rows == w.rows && w.session.value.superseded <= w'.session.value.superseded
  {
    if steps != [] {
      var init, last := steps[..|steps| - 1], steps[|steps| - 1];
      OtherEmbedsKeep(encode, w, init, hash, keys);
      OtherEmbedKeeps(encode, Run(w, init), last, hash, keys);
      StepKeepsInv(encode, Run(w, init), last);
    }
  }

  /** Chunk `i` of the document has its row, and the file its vector. */
  ghost predicate HasChunk<V>(encode: Key -> V, w: World<V>, hash: string, keys: seq<Key>, i: nat)
    requires i < |keys|
  {
    var id := ChunkId(hash, i);
    && id in w.rows && w.rows[id] == RowOf(keys[i], w.rows[id].vid)
    && w.file.Some? && w.rows[id].vid in w.file.value && w.file.value[w.rows[id].vid] == encode(keys[i])
  }

  lemma SaveAndCommit<V>(encode: Key -> V, w: World<V>, hash: string, keys: seq<Key>)
    requires w.session.Some? && Inv(encode, w) && AllWait(w.session.value, hash, keys)
    ensures var w' := Next(Next(w, Save(Saved)), Commit);
            && (forall i: nat | i < |keys| :: HasChunk(encode, w', hash, keys, i))
            && (hash in w.session.value.superseded ==> forall id | id in w'.rows && id.hash == hash :: id.ordinal < |keys|)
  {
    var s, saved := w.session.value, Next(w, Save(Saved));
    FlushKeepsInv(encode, w, Saved);
    forall i: nat | i < |keys|
      ensures HasChunk(encode, Next(saved, Commit), hash, keys, i)
    {
      var id := ChunkId(hash, i);
      CommitWrites(encode, saved, id);
      assert Waits(s, hash, keys, i);
      LatestIsPending(s.pending, id);
      PendingIsBound(encode, s, Pending(id, Latest(s.pending, id).value));
    }
    if hash in s.superseded {
      forall id | id in Next(saved, Commit).rows && id.hash == hash
        ensures id.ordinal < |keys|
      {
        CommitWrites(encode, saved, id);
        LatestIsPending(s.pending, id);
      }
    }
  }

  lemma PendingIsBound<V>(encode: Key -> V, s: Session<V>, p: Pending)
    requires PendingOk(encode, s.pending, s.index.live) && p in s.pending
    ensures Bound(encode, s.index.live, p.row.vid, Identity(p.row))
  {
    var i :| 0 <= i < |s.pending| && s.pending[i] == p;
    assert Bound(encode, s.index.live, s.pending[i].row.vid, Identity(s.pending[i].row));
  }

  lemma DocumentIsWritten<V(!new)>(
      encode: Key -> V, w: World<V>, hash: string, keys: seq<Key>, backend: Backend<V>, faults: seq<set<nat>>, others: seq<Step<V>>)
    requires Inv(encode, w) && Honest(encode, backend) && Embeds(w, Embed(hash, keys, backend, faults))
    requires forall p | p in w.session.value.pending :: p.id.hash != hash
    requires forall step | step in others :: HonestStep(encode, step) && step.Embed? && step.hash != hash
    ensures var w' := Next(Next(Run(Next(w, Embed(hash, keys, backend, faults)), others), Save(Saved)), Commit);
            && (forall i: nat | i < |keys| :: HasChunk(encode, w', hash, keys, i))
            && ((exists id :: id in w.rows && id.hash == hash) ==> forall id | id in w'.rows && id.hash == hash :: id.ordinal < |keys|)
  {
    var embed: Step<V> := Embed(hash, keys, backend, faults);
    EmbeddedWaits(encode, w, hash, keys, backend, faults);
    StepKeepsInv(encode, w, embed);
    OtherEmbedsKeep(encode, Next(w, embed), others, hash, keys);
    SaveAndCommit(encode, Run(Next(w, embed), others), hash, keys);
  }

  /** After any run, a document whose embedding goes through has, once the next checkpoint is
      through, a row with its key and its own vector in the file for every chunk; when the hash had
      rows before, it has no others. This whatever other documents share the checkpoint,
      before it and after it. */
  lemma CheckpointWritesDocument<V(!new)>(
      encode: Key -> V, before: seq<Step<V>>, hash: string, keys: seq<Key>, backend: Backend<V>, faults: seq<set<nat>>,
      others: seq<Step<V>>)
    requires forall step | step in before :: HonestStep(encode, step)
    requires forall step | step in others :: HonestStep(encode, step) && step.Embed? && step.hash != hash
    requires var w := Run(Empty<V>(), before);
             && Honest(encode, backend) && Embeds(w, Embed(hash, keys, backend, faults))
             && forall p | p in w.session.value.pending :: p.id.hash != hash
    ensures var w := Run(Empty<V>(), before);
            var w' := Next(Next(Run(Next(w, Embed(hash, keys, backend, faults)), others), Save(Saved)), Commit);
            && (forall i: nat | i < |keys| :: HasChunk(encode, w', hash, keys, i))
            && ((exists id :: id in w.rows && id.hash == hash) ==> forall id | id in w'.rows && id.hash == hash :: id.ordinal < |keys|)
  {
    RunKeepsInv(encode, Empty<V>(), before);
    DocumentIsWritten(encode, Run(Empty<V>(), before), hash, keys, backend, faults, others);
  }

  // ── Rows of other documents ────────────────────────────────────────────────

  lemma {:induction false} EmbedsLeaveOthers<V(!new)>(encode: Key -> V, w: World<V>, steps: seq<Step<V>>, hash: string)
    requires w.session.Some? && Inv(encode, w)
    requires forall step | step in steps :: HonestStep(encode, step) && step.Embed? && step.hash != hash
    requires hash !in w.session.value.superseded && forall p | p in w.session.value.pending :: p.id.hash != hash
    ensures var w' := Run(w, steps);
            && w'.session.Some? && Inv(encode, w') && w'.rows == w.rows
            && hash !in w'.session.value.superseded && forall p | p in w'.session.value.pending :: p.id.hash != hash
  {
    if steps != [] {
      var init, last := steps[..|steps| - 1], steps[|steps| - 1];
      EmbedsLeaveOthers(encode, w, init, hash);
      StepKeepsInv(encode, Run(w, init), last);
      var s := Run(w, init).session.value;
      var vectors := EmbedPassages(s, w.rows, last.keys, last.backend);
      if vectors.Some? {
        AddAllIsAllOrNothing(s.index, vectors.value, last.faults);
      }
    }
  }

  /** A checkpoint after any embeddings leaves the rows of every hash that none of them was of
      exactly as they were. */
  lemma CheckpointSparesOthers<V(!new)>(encode: Key -> V, w: World<V>, steps: seq<Step<V>>, id: ChunkId)
    requires w.session.Some? && Inv(encode, w)
    requires w.session.value.pending == [] && w.session.value.superseded == {}
    requires forall step | step in steps :: HonestStep(encode, step) && step.Embed? && step.hash != id.hash
    ensures var w' := Next(Next(Run(w, steps), Save(Saved)), Commit);
            (id in w'.rows <==> id in w.rows) && (id in w.rows ==> w'.rows[id] == w.rows[id])
  {
    EmbedsLeaveOthers(encode, w, steps, id.hash);
    var before := Run(w, steps);
    FlushKeepsInv(encode, before, Saved);
    CommitWrites(encode, Next(before, Save(Saved)), id);
    LatestIsPending(before.session.value.pending, id);
  }

  /** A checkpoint of any number of documents, each hash once, at any reachable state in which
      nothing waits: every one that goes through is there afterwards. */
  lemma CheckpointWritesAll<V(!new)>(encode: Key -> V, w: World<V>, embeds: seq<Step<V>>, i: nat)
    requires Inv(encode, w) && w.session.Some? && w.session.value.pending == []
    requires forall step | step in embeds :: HonestStep(encode, step)
    requires forall j | 0 <= j < |embeds| :: embeds[j].Embed?
    requires forall j, k | 0 <= j < k < |embeds| :: embeds[j].hash != embeds[k].hash
    requires i < |embeds| && Embeds(Run(w, embeds[..i]), embeds[i])
    ensures var w' := Next(Next(Run(w, embeds), Save(Saved)), Commit);
            forall c: nat | c < |embeds[i].keys| :: HasChunk(encode, w', embeds[i].hash, embeds[i].keys, c)
  {
    var step, first, rest := embeds[i], embeds[..i], embeds[i + 1..];
    RunKeepsInv(encode, w, first);
    RunsLeavePending(w, first, step.hash);
    RunThrough(w, embeds, i);
    assert step in embeds;
    DocumentIsWritten(encode, Run(w, first), step.hash, step.keys, step.backend, step.faults, rest);
  }

  lemma RunThrough<V>(w: World<V>, steps: seq<Step<V>>, i: nat)
    requires i < |steps|
    ensures Run(w, steps) == Run(Next(Run(w, steps[..i]), steps[i]), steps[i + 1..])
  {
    var first, step, rest := steps[..i], steps[i], steps[i + 1..];
    RunBoth(w, first + [step], rest);
    RunBoth(w, first, [step]);
    RunOne(Run(w, first), step);
    assert first + [step] + rest == steps;
  }

  lemma RunOne<V>(w: World<V>, step: Step<V>)
    ensures Run(w, [step]) == Next(w, step)
  {
    assert [step][..0] == [];
    assert Run(w, [step][..0]) == w;
  }

  lemma {:induction false} RunBoth<V>(w: World<V>, a: seq<Step<V>>, b: seq<Step<V>>)
    ensures Run(w, a + b) == Run(Run(w, a), b)
    decreases |b|
  {
    if b == [] {
      assert a + b == a;
    } else {
      var n := |b| - 1;
      assert (a + b)[..|a| + n] == a + b[..n];
      RunBoth(w, a, b[..n]);
    }
  }

  lemma {:induction false} RunsLeavePending<V>(w: World<V>, steps: seq<Step<V>>, hash: string)
    requires w.session.Some? && forall p | p in w.session.value.pending :: p.id.hash != hash
    requires forall j | 0 <= j < |steps| :: steps[j].Embed? && steps[j].hash != hash
    ensures Run(w, steps).session.Some? && forall p | p in Run(w, steps).session.value.pending :: p.id.hash != hash
  {
    if steps != [] {
      var init, last := steps[..|steps| - 1], steps[|steps| - 1];
      RunsLeavePending(w, init, hash);
      var s := Run(w, init).session.value;
      var vectors := EmbedPassages(s, Run(w, init).rows, last.keys, last.backend);
      if vectors.Some? {
        AddAllIsAllOrNothing(s.index, vectors.value, last.faults);
      }
    }
  }
}
