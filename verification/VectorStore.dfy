/** The vector store across runs and crashes. */
module VectorStore {
  // What is on disk, what a writing process holds in memory, and every step that changes
  // either (store.rs, hnsw.rs, db.rs and the checkpoint of `rqmd embed`).
  import opened Common
  import opened VectorIndexes

  /** What a stored vector was computed from. Equal keys stand for equal digests: the
      digests are taken to be collision-free. */
  datatype Key = Key(backend: string, model: string, contextSize: nat, chunk: string)

  /** Primary key of `content_vectors`. */
  datatype ChunkId = ChunkId(hash: string, ordinal: nat)

  /** A row of `content_vectors`; one whose identity was never recorded has no key. */
  datatype Row = Row(stored: Option<Key>, model: string, vid: nat)

  /** The key under which a lookup, which names the model too, finds a row: the stored one unless the
      model column has changed since. */
  function KeyUnder(stored: Option<Key>, model: string): Option<Key> {
    if stored.Some? && stored.value.model == model then stored else None
  }

  function Identity(row: Row): Option<Key> {
    KeyUnder(row.stored, row.model)
  }

  function RowOf(key: Key, vid: nat): Row {
    Row(Some(key), key.model, vid)
  }

  type Rows = map<ChunkId, Row>

  /** A row computed but not yet committed (`PendingVectorMeta`). */
  datatype Pending = Pending(id: ChunkId, row: Row)

  /** What one writing process holds in memory. */
  datatype Session<V> = Session(index: Index<V>, dirty: bool, staged: map<Key, nat>,
                                pending: seq<Pending>, superseded: set<string>)

  datatype World<V> = World(rows: Rows, floor: nat, file: Option<map<nat, V>>, session: Option<Session<V>>)

  /** The embedding backend: a batch call may fail or return the wrong number of vectors. */
  type Backend<!V> = seq<Key> -> Option<seq<V>>

  // ── Opening ────────────────────────────────────────────────────────────────

  ghost function RowVids(rows: Rows): set<nat> {
    set id | id in rows :: rows[id].vid
  }

  /** The least number above every vid of the set: `MAX(vid) + 1`, or 0 for no rows. */
  ghost function Ceiling(vids: set<nat>): (c: nat)
    ensures forall v | v in vids :: v < c
    ensures c == 0 || c - 1 in vids
  {
    if vids == {} then 0
    else
      var v :| v in vids;
      var rest := Ceiling(vids - {v});
      assert forall w | w in vids :: w == v || w in vids - {v};
      if v < rest then rest else v + 1
  }

  function Max(a: nat, b: nat): nat {
    if a < b then b else a
  }

  /** `Store::open`: a file that is missing or fails to load leaves the index empty. */
  ghost function OpenSession<V>(w: World<V>, readable: bool): Session<V> {
    var live := if w.file.Some? && readable then w.file.value else map[];
    var next := Max(Max(|live|, Ceiling(RowVids(w.rows))), w.floor);
    Session(Index(live, next), false, map[], [], {})
  }

  // ── Embedding with reuse ───────────────────────────────────────────────────

  ghost function StoredVids(rows: Rows, key: Key): set<nat> {
    set id | id in rows && Identity(rows[id]) == Some(key) :: rows[id].vid
  }

  /** `MIN(vid)` over the rows of a key. */
  ghost predicate StoredVid(rows: Rows, key: Key, vid: nat) {
    vid in StoredVids(rows, key) && forall v | v in StoredVids(rows, key) :: vid <= v
  }

  /** The vector a chunk can take over: the staged one first, then the stored one, each only
      when the index still has it. */
  ghost function Reusable<V>(s: Session<V>, rows: Rows, key: Key): Option<V> {
    if key in s.staged && s.staged[key] in s.index.live then Some(s.index.live[s.staged[key]])
    else if exists vid: nat :: StoredVid(rows, key, vid) && vid in s.index.live then
      var vid: nat :| StoredVid(rows, key, vid) && vid in s.index.live;
      Some(s.index.live[vid])
    else None
  }

  ghost function Slots<V>(s: Session<V>, rows: Rows, keys: seq<Key>): seq<Option<V>> {
    seq(|keys|, i requires 0 <= i < |keys| => Reusable(s, rows, keys[i]))
  }

  /** The keys of the empty slots, in order: what the backend is asked to encode. */
  function Missing<V>(slots: seq<Option<V>>, keys: seq<Key>): (missing: seq<Key>)
    requires |slots| == |keys|
  {
    if slots == [] then []
    else (if slots[0].None? then [keys[0]] else []) + Missing(slots[1..], keys[1..])
  }

  /** The slots with the empty ones taken from `encoded` in order. */
  function Fill<V>(slots: seq<Option<V>>, encoded: seq<V>): seq<V> {
    if slots == [] then []
    else if slots[0].Some? then [slots[0].value] + Fill(slots[1..], encoded)
    else if encoded == [] then []
    else [encoded[0]] + Fill(slots[1..], encoded[1..])
  }

  lemma {:induction false} FillsEverySlot<V>(slots: seq<Option<V>>, keys: seq<Key>)
    requires |slots| == |keys|
    ensures forall encoded: seq<V> :: |encoded| == |Missing(slots, keys)| ==> |Fill(slots, encoded)| == |keys|
  {
    if slots != [] {
      FillsEverySlot(slots[1..], keys[1..]);
    }
  }

  /** `embed_passages_reusing`; `None` when the backend fails or miscounts. */
  ghost function EmbedPassages<V>(s: Session<V>, rows: Rows, keys: seq<Key>, backend: Backend<V>): (r: Option<seq<V>>)
    ensures r.Some? ==> |r.value| == |keys|
  {
    var slots := Slots(s, rows, keys);
    var missing := Missing(slots, keys);
    FillsEverySlot(slots, keys);
    if missing == [] then Some(Fill(slots, []))
    else
      match backend(missing)
      case None => None
      case Some(encoded) => if |encoded| == |missing| then Some(Fill(slots, encoded)) else None
  }

  // ── One document ───────────────────────────────────────────────────────────

  /** The staged reuse map after `vids` were issued for `keys`; an existing entry stays. */
  function Stage(staged: map<Key, nat>, keys: seq<Key>, vids: seq<nat>): map<Key, nat>
    requires |keys| == |vids|
    decreases |keys|
  {
    if keys == [] then staged
    else Stage(if keys[0] in staged then staged else staged[keys[0] := vids[0]], keys[1..], vids[1..])
  }

  function PendingRows(hash: string, keys: seq<Key>, vids: seq<nat>): seq<Pending>
    requires |keys| == |vids|
  {
    seq(|keys|, i requires 0 <= i < |keys| => Pending(ChunkId(hash, i), RowOf(keys[i], vids[i])))
  }

  ghost function VidsOf(rows: Rows, hash: string): set<nat> {
    set id | id in rows && id.hash == hash :: rows[id].vid
  }

  /** One document of the embed loop: embed and add its chunks, then evict and queue the
      vectors they supersede. A failure leaves everything but the allocator's counter alone. */
  ghost function EmbedDocument<V>(s: Session<V>, rows: Rows, hash: string, keys: seq<Key>,
                                  backend: Backend<V>, faults: seq<set<nat>>): Session<V>
  {
    match EmbedPassages(s, rows, keys, backend)
    case None => s
    case Some(vectors) =>
      AddAllIsAllOrNothing(s.index, vectors, faults);
      var (index, vids) := AddAll(s.index, vectors, faults);
      if vids.None? then s.(index := index)
      else
        var stale := VidsOf(rows, hash);
        s.(index := index.(live := index.live - stale),
           dirty := true,
           staged := Stage(s.staged, keys, vids.value),
           pending := s.pending + PendingRows(hash, keys, vids.value),
           superseded := if stale == {} then s.superseded else s.superseded + {hash})
  }

  // ── Checkpoint ─────────────────────────────────────────────────────────────

  function DeleteHashes(rows: Rows, hashes: set<string>): Rows {
    map id | id in rows && id.hash !in hashes :: rows[id]
  }

  /** Upsert the pending rows in order; `None` when one violates UNIQUE(vid). */
  function UpsertAll(rows: Rows, pending: seq<Pending>): Option<Rows>
    decreases |pending|
  {
    if pending == [] then Some(rows)
    else
      var p := pending[0];
      if exists id :: id in rows && id != p.id && rows[id].vid == p.row.vid then None
      else UpsertAll(rows[p.id := p.row], pending[1..])
  }

  /** The checkpoint's transaction: superseded rows out, pending rows in, floor raised. */
  function CommitRows<V>(w: World<V>): World<V>
    requires w.session.Some?
  {
    var s := w.session.value;
    match UpsertAll(DeleteHashes(w.rows, s.superseded), s.pending)
    case None => w
    case Some(rows) =>
      w.(rows := rows, floor := Max(w.floor, s.index.nextVid),
         session := Some(s.(staged := map[], pending := [], superseded := {})))
  }

  datatype SaveOutcome = Saved | FailedBeforeRename | FailedAfterRename

  /** `flush`: the temp file is renamed over the index file, or nothing changes. */
  function Flush<V>(w: World<V>, outcome: SaveOutcome): World<V>
    requires w.session.Some?
  {
    var s := w.session.value;
    if !s.dirty || outcome.FailedBeforeRename? then w
    else w.(file := Some(s.index.live), session := Some(s.(dirty := outcome.FailedAfterRename?)))
  }

  function Evict<V>(s: Session<V>, vids: set<nat>): Session<V> {
    if vids == {} then s else s.(index := s.index.(live := s.index.live - vids), dirty := true)
  }

  // ── Runs ───────────────────────────────────────────────────────────────────

  datatype Step<!V> =
    | Open(readable: bool)
    | Embed(hash: string, keys: seq<Key>, backend: Backend<V>, faults: seq<set<nat>>)
    | EvictVids(vids: set<nat>)
    | Save(outcome: SaveOutcome)
    | Commit
    | DeleteRows(ids: set<ChunkId>)
    | RemoveFile
    | Crash

  /** A step that the current state does not allow changes nothing. Rows commit only when
      nothing is left to save; vids may be evicted, and rows deleted, at any time. */
  ghost function Next<V>(w: World<V>, step: Step<V>): World<V> {
    match step
    case Open(readable) => if w.session.Some? then w else w.(session := Some(OpenSession(w, readable)))
    case Embed(hash, keys, backend, faults) =>
      if w.session.None? then w
      else w.(session := Some(EmbedDocument(w.session.value, w.rows, hash, keys, backend, faults)))
    case EvictVids(vids) => if w.session.None? then w else w.(session := Some(Evict(w.session.value, vids)))
    case Save(outcome) => if w.session.None? then w else Flush(w, outcome)
    case Commit => if w.session.None? || w.session.value.dirty then w else CommitRows(w)
    case DeleteRows(ids) => w.(rows := w.rows - ids)
    case RemoveFile => if w.session.Some? then w else w.(file := None)
    case Crash => w.(session := None)
  }

  ghost function Run<V>(w: World<V>, steps: seq<Step<V>>): World<V> {
    if steps == [] then w else Next(Run(w, steps[..|steps| - 1]), steps[|steps| - 1])
  }

  /** A backend whose batches, when complete, are the embeddings of their chunks one by one. */
  ghost predicate Honest<V(!new)>(encode: Key -> V, backend: Backend<V>) {
    forall keys: seq<Key>, i: nat |
      backend(keys).Some? && |backend(keys).value| == |keys| && i < |keys| ::
      backend(keys).value[i] == encode(keys[i])
  }

  ghost predicate HonestStep<V(!new)>(encode: Key -> V, step: Step<V>) {
    step.Embed? ==> Honest(encode, step.backend)
  }

  const EMPTY_ROWS: Rows := map[]

  function Empty<V>(): World<V> {
    World(EMPTY_ROWS, 0, None, None)
  }

  // ── The invariant ──────────────────────────────────────────────────────────

  /** Under `vid` the entries hold nothing, or exactly the embedding of `key`, if there is one. */
  ghost predicate Bound<V>(encode: Key -> V, entries: map<nat, V>, vid: nat, key: Option<Key>) {
    key.Some? && vid in entries ==> entries[vid] == encode(key.value)
  }

  ghost predicate RowsOk<V>(encode: Key -> V, rows: Rows, entries: map<nat, V>) {
    forall id | id in rows :: Bound(encode, entries, rows[id].vid, Identity(rows[id]))
  }

  ghost predicate PendingOk<V>(encode: Key -> V, pending: seq<Pending>, entries: map<nat, V>) {
    forall i | 0 <= i < |pending| :: Bound(encode, entries, pending[i].row.vid, Identity(pending[i].row))
  }

  ghost predicate UniqueVids(rows: Rows) {
    forall id, id' | id in rows && id' in rows && rows[id].vid == rows[id'].vid :: id == id'
  }

  /** Pending rows carry vids below the counter that no row and no other pending row has. */
  ghost predicate PendingFresh<V>(s: Session<V>, rows: Rows) {
    && (forall i | 0 <= i < |s.pending| :: s.pending[i].row.vid < s.index.nextVid)
    && (forall i, id | 0 <= i < |s.pending| && id in rows :: rows[id].vid != s.pending[i].row.vid)
    && (forall i, j | 0 <= i < j < |s.pending| :: s.pending[i].row.vid < s.pending[j].row.vid)
  }

  ghost predicate StagedOk<V>(encode: Key -> V, entries: map<nat, V>, next: nat, staged: map<Key, nat>) {
    forall k | k in staged :: staged[k] < next && Bound(encode, entries, staged[k], Some(k))
  }

  ghost predicate SessionInv<V>(encode: Key -> V, w: World<V>, s: Session<V>) {
    && w.floor <= s.index.nextVid
    && (forall id | id in w.rows :: w.rows[id].vid < s.index.nextVid)
    && RowsOk(encode, w.rows, s.index.live)
    && PendingOk(encode, s.pending, s.index.live)
    && PendingFresh(s, w.rows)
    && StagedOk(encode, s.index.live, s.index.nextVid, s.staged)
    && (!s.dirty && w.file.Some? ==> PendingOk(encode, s.pending, w.file.value))
  }

  ghost predicate Inv<V>(encode: Key -> V, w: World<V>) {
    && UniqueVids(w.rows)
    && (w.file.Some? ==> RowsOk(encode, w.rows, w.file.value))
    && (w.session.Some? ==> SessionInv(encode, w, w.session.value))
  }

  // ── Reuse refines re-embedding ─────────────────────────────────────────────

  lemma {:induction false} FillIsPointwise<V>(encode: Key -> V, slots: seq<Option<V>>, keys: seq<Key>, encoded: seq<V>)
    requires |slots| == |keys| && |encoded| == |Missing(slots, keys)|
    requires forall i | 0 <= i < |slots| && slots[i].Some? :: slots[i].value == encode(keys[i])
    requires forall j | 0 <= j < |encoded| :: encoded[j] == encode(Missing(slots, keys)[j])
    ensures |Fill(slots, encoded)| == |keys|
    ensures forall i | 0 <= i < |keys| :: Fill(slots, encoded)[i] == encode(keys[i])
  {
    if slots != [] {
      var missing := Missing(slots, keys);
      if slots[0].Some? {
        FillIsPointwise(encode, slots[1..], keys[1..], encoded);
      } else {
        assert missing[0] == keys[0] && missing[1..] == Missing(slots[1..], keys[1..]);
        FillIsPointwise(encode, slots[1..], keys[1..], encoded[1..]);
      }
    }
  }

  /** Every chunk gets the vector a full re-embedding would give it, whatever mix of staged,
      stored, evicted and missing vectors its key meets. */
  lemma ReuseRefinesEmbedding<V(!new)>(encode: Key -> V, w: World<V>, keys: seq<Key>, backend: Backend<V>)
    requires w.session.Some? && Inv(encode, w) && Honest(encode, backend)
    ensures var r := EmbedPassages(w.session.value, w.rows, keys, backend);
            r.Some? ==> |r.value| == |keys| && forall i | 0 <= i < |keys| :: r.value[i] == encode(keys[i])
  {
    var s := w.session.value;
    var slots := Slots(s, w.rows, keys);
    forall i | 0 <= i < |keys| && slots[i].Some?
      ensures slots[i].value == encode(keys[i])
    {
      var key := keys[i];
      if !(key in s.staged && s.staged[key] in s.index.live) {
        var vid: nat :| StoredVid(w.rows, key, vid) && vid in s.index.live && slots[i] == Some(s.index.live[vid]);
        var id :| id in w.rows && Identity(w.rows[id]) == Some(key) && w.rows[id].vid == vid;
        assert Bound(encode, s.index.live, w.rows[id].vid, Identity(w.rows[id]));
      }
    }
    var missing := Missing(slots, keys);
    var encoded := if missing == [] then Some([]) else backend(missing);
    if encoded.Some? && |encoded.value| == |missing| {
      FillIsPointwise(encode, slots, keys, encoded.value);
    }
  }

  // ── Each step keeps the invariant ──────────────────────────────────────────

  lemma {:induction false} StageIsOk<V>(encode: Key -> V, entries: map<nat, V>, next: nat, staged: map<Key, nat>, keys: seq<Key>, vids: seq<nat>)
    requires |keys| == |vids|
    requires StagedOk(encode, entries, next, staged)
    requires forall i | 0 <= i < |keys| :: vids[i] < next && Bound(encode, entries, vids[i], Some(keys[i]))
    ensures StagedOk(encode, entries, next, Stage(staged, keys, vids))
    decreases |keys|
  {
    if keys != [] {
      var staged' := if keys[0] in staged then staged else staged[keys[0] := vids[0]];
      assert forall i | 0 <= i < |keys| - 1 :: vids[1..][i] == vids[i + 1] && keys[1..][i] == keys[i + 1];
      assert Bound(encode, entries, vids[0], Some(keys[0]));
      StageIsOk(encode, entries, next, staged', keys[1..], vids[1..]);
    }
  }

  /** Adding `keys` under new vids and evicting `stale` keeps every binding that held before. */
  lemma AddsKeepBindings<V>(encode: Key -> V, before: Index<V>, after: Index<V>, vectors: seq<V>, vids: seq<nat>, stale: set<nat>)
    requires Grown(before, after, vectors, vids)
    ensures forall vid: nat, key | vid < before.nextVid && Bound(encode, before.live, vid, key) ::
              Bound(encode, after.live - stale, vid, key)
  {
  }

  lemma NewRowsAreOk<V>(encode: Key -> V, before: Index<V>, after: Index<V>, hash: string, keys: seq<Key>, vectors: seq<V>, vids: seq<nat>, stale: set<nat>)
    requires |keys| == |vids| == |vectors| && Grown(before, after, vectors, vids)
    requires forall i | 0 <= i < |keys| :: vectors[i] == encode(keys[i])
    ensures PendingOk(encode, PendingRows(hash, keys, vids), after.live - stale)
    ensures forall i | 0 <= i < |keys| :: Bound(encode, after.live - stale, vids[i], Some(keys[i]))
  {
  }

  lemma PendingOkBoth<V>(encode: Key -> V, a: seq<Pending>, b: seq<Pending>, entries: map<nat, V>)
    requires PendingOk(encode, a, entries) && PendingOk(encode, b, entries)
    ensures PendingOk(encode, a + b, entries)
  {
  }

  lemma RowsStayOk<V>(encode: Key -> V, rows: Rows, before: Index<V>, after: map<nat, V>)
    requires RowsOk(encode, rows, before.live) && forall id | id in rows :: rows[id].vid < before.nextVid
    requires forall vid: nat, key | vid < before.nextVid && Bound(encode, before.live, vid, key) ::
               Bound(encode, after, vid, key)
    ensures RowsOk(encode, rows, after)
  {
    forall id | id in rows
      ensures Bound(encode, after, rows[id].vid, Identity(rows[id]))
    {
      assert Bound(encode, before.live, rows[id].vid, Identity(rows[id]));
    }
  }

  /** A document whose chunks all went into the index keeps the invariant. */
  lemma AddedKeepsInv<V>(encode: Key -> V, w: World<V>, hash: string, keys: seq<Key>, vectors: seq<V>,
                         index: Index<V>, vids: seq<nat>, s': Session<V>)
    requires w.session.Some? && Inv(encode, w)
    requires |keys| == |vectors| == |vids| && Grown(w.session.value.index, index, vectors, vids)
    requires forall i | 0 <= i < |keys| :: vectors[i] == encode(keys[i])
    requires s'.index == index.(live := index.live - VidsOf(w.rows, hash)) && s'.dirty
    requires s'.staged == Stage(w.session.value.staged, keys, vids)
    requires s'.pending == w.session.value.pending + PendingRows(hash, keys, vids)
    ensures SessionInv(encode, w, s')
    ensures forall i | |w.session.value.pending| <= i < |s'.pending| ::
              w.session.value.index.nextVid <= s'.pending[i].row.vid
  {
    var s, stale := w.session.value, VidsOf(w.rows, hash);
    AddsKeepBindings(encode, s.index, index, vectors, vids, stale);
    NewRowsAreOk(encode, s.index, index, hash, keys, vectors, vids, stale);
    assert StagedOk(encode, index.live - stale, index.nextVid, s.staged);
    StageIsOk(encode, index.live - stale, index.nextVid, s.staged, keys, vids);
    PendingStaysFresh(s, s', w.rows, PendingRows(hash, keys, vids));
    RowsStayOk(encode, w.rows, s.index, s'.index.live);
    assert PendingOk(encode, s.pending, s'.index.live);
    PendingOkBoth(encode, s.pending, PendingRows(hash, keys, vids), s'.index.live);
  }

  lemma EmbedKeepsInv<V(!new)>(encode: Key -> V, w: World<V>, hash: string, keys: seq<Key>, backend: Backend<V>, faults: seq<set<nat>>)
    requires w.session.Some? && Inv(encode, w) && Honest(encode, backend)
    ensures var s' := EmbedDocument(w.session.value, w.rows, hash, keys, backend, faults);
            && SessionInv(encode, w, s')
            && (forall i | |w.session.value.pending| <= i < |s'.pending| ::
                  w.session.value.index.nextVid <= s'.pending[i].row.vid)
  {
    var s := w.session.value;
    ReuseRefinesEmbedding(encode, w, keys, backend);
    var r := EmbedPassages(s, w.rows, keys, backend);
    if r.Some? {
      AddAllIsAllOrNothing(s.index, r.value, faults);
      var (index, vids) := AddAll(s.index, r.value, faults);
      if vids.Some? {
        var s' := EmbedDocument(s, w.rows, hash, keys, backend, faults);
        AddedKeepsInv(encode, w, hash, keys, r.value, index, vids.value, s');
      }
    }
  }

  lemma PendingStaysFresh<V>(s: Session<V>, s': Session<V>, rows: Rows, added: seq<Pending>)
    requires PendingFresh(s, rows) && forall id | id in rows :: rows[id].vid < s.index.nextVid
    requires s'.pending == s.pending + added && s.index.nextVid <= s'.index.nextVid
    requires forall i | 0 <= i < |added| :: s.index.nextVid <= added[i].row.vid < s'.index.nextVid
    requires forall i, j | 0 <= i < j < |added| :: added[i].row.vid < added[j].row.vid
    ensures PendingFresh(s', rows)
  {
    forall i, j | 0 <= i < j < |s'.pending|
      ensures s'.pending[i].row.vid < s'.pending[j].row.vid
    {
      if |s.pending| <= i {
        assert s'.pending[i] == added[i - |s.pending|];
      }
      if |s.pending| <= j {
        assert s'.pending[j] == added[j - |s.pending|];
      }
    }
  }

  lemma {:induction false} UpsertNeverConflicts<V>(encode: Key -> V, rows: Rows, pending: seq<Pending>, next: nat, entries: map<nat, V>)
    requires UniqueVids(rows)
    requires forall id | id in rows :: rows[id].vid < next && Bound(encode, entries, rows[id].vid, Identity(rows[id]))
    requires forall i | 0 <= i < |pending| ::
               pending[i].row.vid < next && Bound(encode, entries, pending[i].row.vid, Identity(pending[i].row))
    requires forall i, id | 0 <= i < |pending| && id in rows :: rows[id].vid != pending[i].row.vid
    requires forall i, j | 0 <= i < j < |pending| :: pending[i].row.vid < pending[j].row.vid
    ensures var r := UpsertAll(rows, pending);
            && r.Some? && UniqueVids(r.value)
            && (forall id | id in r.value :: r.value[id].vid < next && Bound(encode, entries, r.value[id].vid, Identity(r.value[id])))
    decreases |pending|
  {
    if pending != [] {
      var p := pending[0];
      var rows' := rows[p.id := p.row];
      assert forall i | 0 <= i < |pending| - 1 :: pending[1..][i] == pending[i + 1];
      UpsertNeverConflicts(encode, rows', pending[1..], next, entries);
    }
  }

  /** The checkpoint's transaction never meets a duplicate vid, and every vid it leaves in the
      table is below the floor it persists. */
  lemma CommitKeepsInv<V>(encode: Key -> V, w: World<V>)
    requires w.session.Some? && !w.session.value.dirty && Inv(encode, w)
    ensures var s := w.session.value;
            && UpsertAll(DeleteHashes(w.rows, s.superseded), s.pending).Some?
            && Inv(encode, CommitRows(w))
            && (forall id | id in CommitRows(w).rows :: CommitRows(w).rows[id].vid < CommitRows(w).floor)
  {
    var s := w.session.value;
    var kept := DeleteHashes(w.rows, s.superseded);
    UpsertNeverConflicts(encode, kept, s.pending, s.index.nextVid, s.index.live);
    if w.file.Some? {
      UpsertNeverConflicts(encode, kept, s.pending, s.index.nextVid, w.file.value);
    }
  }

  lemma OpenKeepsInv<V>(encode: Key -> V, w: World<V>, readable: bool)
    requires Inv(encode, w)
    ensures SessionInv(encode, w, OpenSession(w, readable))
  {
    assert forall id | id in w.rows :: w.rows[id].vid in RowVids(w.rows);
  }

  lemma EvictKeepsInv<V>(encode: Key -> V, w: World<V>, vids: set<nat>)
    requires w.session.Some? && Inv(encode, w)
    ensures SessionInv(encode, w, Evict(w.session.value, vids))
  {
  }

  lemma FlushKeepsInv<V>(encode: Key -> V, w: World<V>, outcome: SaveOutcome)
    requires w.session.Some? && Inv(encode, w)
    ensures Inv(encode, Flush(w, outcome))
  {
  }

  lemma StepKeepsInv<V(!new)>(encode: Key -> V, w: World<V>, step: Step<V>)
    requires Inv(encode, w) && HonestStep(encode, step)
    ensures Inv(encode, Next(w, step))
  {
    match step
    case Open(readable) =>
      if w.session.None? {
        OpenKeepsInv(encode, w, readable);
      }
    case Embed(hash, keys, backend, faults) =>
      if w.session.Some? {
        EmbedKeepsInv(encode, w, hash, keys, backend, faults);
      }
    case Commit =>
      if w.session.Some? && !w.session.value.dirty {
        CommitKeepsInv(encode, w);
      }
    case EvictVids(vids) =>
      if w.session.Some? {
        EvictKeepsInv(encode, w, vids);
      }
    case Save(outcome) =>
      if w.session.Some? {
        FlushKeepsInv(encode, w, outcome);
      }
    case DeleteRows(ids) =>
    case RemoveFile =>
    case Crash =>
  }

  lemma {:induction false} RunKeepsInv<V(!new)>(encode: Key -> V, w: World<V>, steps: seq<Step<V>>)
    requires Inv(encode, w) && forall step | step in steps :: HonestStep(encode, step)
    ensures Inv(encode, Run(w, steps))
  {
    if steps != [] {
      RunKeepsInv(encode, w, steps[..|steps| - 1]);
      StepKeepsInv(encode, Run(w, steps[..|steps| - 1]), steps[|steps| - 1]);
    }
  }

  // ── What holds in every reachable state ────────────────────────────────────

  /** Every row that was committed or waits for it has its key. */
  ghost predicate Keyed<V>(w: World<V>) {
    && (forall id | id in w.rows :: Identity(w.rows[id]).Some?)
    && (w.session.Some? ==> forall p | p in w.session.value.pending :: Identity(p.row).Some?)
  }

  lemma {:induction false} UpsertKeepsKeyed(rows: Rows, pending: seq<Pending>)
    requires (forall id | id in rows :: Identity(rows[id]).Some?) && forall p | p in pending :: Identity(p.row).Some?
    ensures UpsertAll(rows, pending).Some? ==>
              forall id | id in UpsertAll(rows, pending).value :: Identity(UpsertAll(rows, pending).value[id]).Some?
    decreases |pending|
  {
    if pending != [] {
      UpsertKeepsKeyed(rows[pending[0].id := pending[0].row], pending[1..]);
    }
  }

  lemma StepKeepsKeyed<V>(w: World<V>, step: Step<V>)
    requires Keyed(w)
    ensures Keyed(Next(w, step))
  {
    if step.Commit? && w.session.Some? {
      var s := w.session.value;
      UpsertKeepsKeyed(DeleteHashes(w.rows, s.superseded), s.pending);
    }
  }

  lemma {:induction false} RunKeepsKeyed<V>(w: World<V>, steps: seq<Step<V>>)
    requires Keyed(w)
    ensures Keyed(Run(w, steps))
  {
    if steps != [] {
      RunKeepsKeyed(w, steps[..|steps| - 1]);
      StepKeepsKeyed(Run(w, steps[..|steps| - 1]), steps[|steps| - 1]);
    }
  }

  /** After any run, crashes and failed loads included, what the file or the open index binds
      to a row's vid is the vector that row was embedded with, or nothing at all. */
  lemma RowsNeverMisbound<V(!new)>(encode: Key -> V, steps: seq<Step<V>>, id: ChunkId)
    requires forall step | step in steps :: HonestStep(encode, step)
    requires id in Run(Empty<V>(), steps).rows
    ensures var w := Run(Empty<V>(), steps);
            var row := w.rows[id];
            && Identity(row).Some?
            && (w.file.Some? && row.vid in w.file.value ==> w.file.value[row.vid] == encode(Identity(row).value))
            && (w.session.Some? && row.vid in w.session.value.index.live ==>
                  w.session.value.index.live[row.vid] == encode(Identity(row).value))
  {
    RunKeepsInv(encode, Empty<V>(), steps);
    RunKeepsKeyed(Empty<V>(), steps);
    var w := Run(Empty<V>(), steps);
    assert w.file.Some? ==> Bound(encode, w.file.value, w.rows[id].vid, Identity(w.rows[id]));
    assert w.session.Some? ==> Bound(encode, w.session.value.index.live, w.rows[id].vid, Identity(w.rows[id]));
  }

  /** After any run, embedding a document issues vids that no row holds, and committing does
      not violate UNIQUE(vid). */
  lemma CommitsNeverConflict<V(!new)>(encode: Key -> V, steps: seq<Step<V>>, vector: V, faults: set<nat>)
    requires forall step | step in steps :: HonestStep(encode, step)
    requires Run(Empty<V>(), steps).session.Some?
    ensures var w := Run(Empty<V>(), steps);
            var s := w.session.value;
            && (var r := AddFrom(s.index, vector, faults, 0).1; r.Added? ==> forall id | id in w.rows :: w.rows[id].vid != r.vid)
            && (!s.dirty ==> UpsertAll(DeleteHashes(w.rows, s.superseded), s.pending).Some?)
  {
    RunKeepsInv(encode, Empty<V>(), steps);
    var w := Run(Empty<V>(), steps);
    var s := w.session.value;
    var r := AddFrom(s.index, vector, faults, 0).1;
    if r.Added? {
      AddFindsFirstFree(s.index, vector, faults, 0, r.vid);
    }
    if !s.dirty {
      CommitKeepsInv(encode, w);
    }
  }

  lemma {:induction false} FloorNeverFalls<V(!new)>(encode: Key -> V, w: World<V>, steps: seq<Step<V>>)
    requires Inv(encode, w) && forall step | step in steps :: HonestStep(encode, step)
    ensures w.floor <= Run(w, steps).floor
  {
    if steps != [] {
      FloorNeverFalls(encode, w, steps[..|steps| - 1]);
    }
  }

  /** A vid that any checkpoint ever committed is never issued again, however many rows are
      deleted, files removed, loads failed and processes crashed in between. */
  lemma CommittedVidsAreNeverReissued<V(!new)>(
      encode: Key -> V, before: seq<Step<V>>, after: seq<Step<V>>,
      hash: string, keys: seq<Key>, backend: Backend<V>, faults: seq<set<nat>>, id: ChunkId)
    requires forall step | step in before + after :: HonestStep(encode, step)
    requires Honest(encode, backend)
    requires var w := Run(Empty<V>(), before); w.session.Some? && !w.session.value.dirty
    requires id in Next(Run(Empty<V>(), before), Commit).rows
    requires Run(Next(Run(Empty<V>(), before), Commit), after).session.Some?
    ensures var committed := Next(Run(Empty<V>(), before), Commit);
            var w := Run(committed, after);
            var s := w.session.value;
            var s' := EmbedDocument(s, w.rows, hash, keys, backend, faults);
            forall i | |s.pending| <= i < |s'.pending| :: s'.pending[i].row.vid > committed.rows[id].vid
  {
    assert forall step | step in before :: step in before + after;
    assert forall step | step in after :: step in before + after;
    RunKeepsInv(encode, Empty<V>(), before);
    var start := Run(Empty<V>(), before);
    CommitKeepsInv(encode, start);
    var committed := Next(start, Commit);
    RunKeepsInv(encode, committed, after);
    FloorNeverFalls(encode, committed, after);
    var w := Run(committed, after);
    EmbedKeepsInv(encode, w, hash, keys, backend, faults);
  }
}
