/** Indexing without checkpoints. */
module IndexRuns {
  // `index_document` (store.rs) commits a row at once for every vector it adds, before any save
  // of the index file; `rqmd embed` saves first. What that costs when the file fails to load.
  import opened Common
  import opened VectorIndexes
  import opened VectorStore

  /** How the two statements that write a chunk's row end, each of which commits by itself: both
      work, the first does not, or the second does not. */
  datatype Cut = Whole | NoRow | NoIdentity

  function CutAt(cuts: seq<Cut>, i: nat): Cut {
    if i < |cuts| then cuts[i] else Whole
  }

  /** `upsert_vector_meta`: model and vid are written, a key stored before stays; `None` when
      UNIQUE(vid) is violated. */
  function UpsertMeta(rows: Rows, id: ChunkId, model: string, vid: nat): Option<Rows> {
    if exists other :: other in rows && other != id && rows[other].vid == vid then None
    else Some(rows[id := Row(StoredKey(rows, id), model, vid)])
  }

  function StoredKey(rows: Rows, id: ChunkId): Option<Key> {
    if id in rows then rows[id].stored else None
  }

  /** `set_vector_identity`. */
  function SetIdentity(rows: Rows, id: ChunkId, key: Key): Rows {
    if id in rows then rows[id := rows[id].(stored := Some(key))] else rows
  }

  function WriteRow(rows: Rows, id: ChunkId, key: Key, vid: nat, cut: Cut): (Rows, bool) {
    if cut.NoRow? then (rows, false)
    else
      match UpsertMeta(rows, id, key.model, vid)
      case None => (rows, false)
      case Some(named) => if cut.NoIdentity? then (named, false) else (SetIdentity(named, id, key), true)
  }

  /** The session after a vector went in under `vid`. */
  function Grow<V>(s: Session<V>, vid: nat, vector: V): Session<V> {
    s.(index := Index(s.index.live[vid := vector], vid + 1), dirty := true)
  }

  /** One chunk: its vector goes into the index, then its row into the table. The result says
      whether both worked. */
  function IndexChunk<V>(w: World<V>, id: ChunkId, key: Key, vector: V, faults: set<nat>, cut: Cut): (World<V>, bool)
    requires w.session.Some?
  {
    var s := w.session.value;
    var (index, r) := AddFrom(s.index, vector, faults, 0);
    if !r.Added? then (w.(session := Some(s.(index := index))), false)
    else
      var (rows, ok) := WriteRow(w.rows, id, key, r.vid, cut);
      (w.(rows := rows, session := Some(s.(index := index, dirty := true))), ok)
  }

  /** Chunks `from..to` of a document, up to the first that fails. */
  function IndexChunks<V>(w: World<V>, hash: string, keys: seq<Key>, vectors: seq<V>, faults: seq<set<nat>>,
                          cuts: seq<Cut>, from: nat, to: nat): World<V>
    requires w.session.Some? && from <= to <= |keys| == |vectors|
    decreases |keys| - from
  {
    if from == to then w
    else
      var (w', ok) := IndexChunk(w, ChunkId(hash, from), keys[from], vectors[from], FaultsAt(faults, from), CutAt(cuts, from));
      if ok then IndexChunks(w', hash, keys, vectors, faults, cuts, from + 1, to) else w'
  }

  /** `index_document` as far as its first `upto` chunks. */
  ghost function IndexDocument<V>(w: World<V>, hash: string, keys: seq<Key>, backend: Backend<V>,
                                  faults: seq<set<nat>>, cuts: seq<Cut>, upto: nat): World<V>
    requires upto <= |keys|
  {
    if w.session.None? then w
    else
      match EmbedPassages(w.session.value, w.rows, keys, backend)
      case None => w
      case Some(vectors) => IndexChunks(w, hash, keys, vectors, faults, cuts, 0, upto)
  }

  // ── One chunk ──────────────────────────────────────────────────────────────

  /** The next add puts its vector under `vid`: the first free vid from the counter on is within
      reach and no try up to it fails. */
  ghost predicate Issues<V>(s: Index<V>, faults: set<nat>, vid: nat) {
    && FirstFree(s, vid) && vid - s.nextVid < MAX_COLLISION_RETRIES
    && forall t | 0 <= t <= vid - s.nextVid :: t !in faults
  }

  /** The key that lookups find for the row of a chunk, beside its new vid. */
  function RecordedKey(rows: Rows, id: ChunkId, key: Key, cut: Cut): Option<Key> {
    match cut
    case Whole => Some(key)
    case NoRow => None
    case NoIdentity => KeyUnder(StoredKey(rows, id), key.model)
  }

  function RowsAfter(rows: Rows, id: ChunkId, key: Key, vid: nat, cut: Cut): Rows {
    match cut
    case Whole => rows[id := RowOf(key, vid)]
    case NoRow => rows
    case NoIdentity => rows[id := Row(StoredKey(rows, id), key.model, vid)]
  }

  lemma WriteRowIs(rows: Rows, id: ChunkId, key: Key, vid: nat, cut: Cut)
    requires forall other | other in rows :: rows[other].vid != vid
    ensures WriteRow(rows, id, key, vid, cut) == (RowsAfter(rows, id, key, vid, cut), cut.Whole?)
  {
    var named := rows[id := Row(StoredKey(rows, id), key.model, vid)];
    assert SetIdentity(named, id, key) == rows[id := RowOf(key, vid)];
  }

  /** What indexing a chunk does, in terms of the vid it issues. */
  lemma IndexChunkIs<V>(encode: Key -> V, w: World<V>, id: ChunkId, key: Key, vector: V, faults: set<nat>, cut: Cut)
    requires w.session.Some? && Inv(encode, w)
    ensures var (w', ok) := IndexChunk(w, id, key, vector, faults, cut);
            var s := w.session.value;
            && w'.session.Some? && w'.file == w.file && w'.floor == w.floor
            && (forall vid: nat | Issues(s.index, faults, vid) ::
                  ok == cut.Whole? && w'.rows == RowsAfter(w.rows, id, key, vid, cut)
                  && w'.session == Some(Grow(s, vid, vector)))
            && ((forall vid: nat :: !Issues(s.index, faults, vid)) ==>
                  && !ok && w'.rows == w.rows
                  && exists next: nat :: next >= s.index.nextVid && w'.session == Some(s.(index := Index(s.index.live, next))))
  {
    var s := w.session.value;
    var (index, r) := AddFrom(s.index, vector, faults, 0);
    AddFindsFirstFree(s.index, vector, faults, 0, if r.Added? then r.vid else 0);
    forall vid: nat | Issues(s.index, faults, vid)
      ensures r == Added(vid)
    {
      AddFindsFirstFree(s.index, vector, faults, 0, vid);
    }
    if r.Added? {
      assert Issues(s.index, faults, r.vid);
      WriteRowIs(w.rows, id, key, r.vid, cut);
    } else {
      assert index == Index(s.index.live, index.nextVid);
    }
  }

  lemma GrownKeepsInv<V>(encode: Key -> V, w: World<V>, id: ChunkId, key: Key, vid: nat, cut: Cut)
    requires w.session.Some? && Inv(encode, w)
    requires w.session.value.index.nextVid <= vid && vid !in w.session.value.index.live
    requires var recorded := RecordedKey(w.rows, id, key, cut);
             && (recorded.Some? ==> encode(recorded.value) == encode(key))
             && (w.file.Some? ==> Bound(encode, w.file.value, vid, recorded))
    ensures Inv(encode, w.(rows := RowsAfter(w.rows, id, key, vid, cut), session := Some(Grow(w.session.value, vid, encode(key)))))
  {
    var s := w.session.value;
    var w' := w.(rows := RowsAfter(w.rows, id, key, vid, cut), session := Some(Grow(s, vid, encode(key))));
    forall other | other in w'.rows
      ensures Bound(encode, w'.session.value.index.live, w'.rows[other].vid, Identity(w'.rows[other]))
      ensures w.file.Some? ==> Bound(encode, w.file.value, w'.rows[other].vid, Identity(w'.rows[other]))
    {
      if other in w.rows {
        assert Bound(encode, s.index.live, w.rows[other].vid, Identity(w.rows[other]));
      }
    }
    assert SessionInv(encode, w', w'.session.value);
  }

  /** Indexing a chunk keeps the invariant if and only if, under the vid about to be issued (the
      first free one from the counter on), neither the new vector nor anything the file still
      holds differs from what the row's recorded key stands for. */
  lemma IndexChunkKeepsInvIff<V>(encode: Key -> V, w: World<V>, id: ChunkId, key: Key, faults: set<nat>, cut: Cut)
    requires w.session.Some? && Inv(encode, w)
    ensures var recorded := RecordedKey(w.rows, id, key, cut);
            Inv(encode, IndexChunk(w, id, key, encode(key), faults, cut).0) <==>
              forall vid: nat | Issues(w.session.value.index, faults, vid) && recorded.Some? ::
                && encode(recorded.value) == encode(key)
                && (w.file.Some? && vid in w.file.value ==> w.file.value[vid] == encode(recorded.value))
  {
    var s := w.session.value;
    var (w', ok) := IndexChunk(w, id, key, encode(key), faults, cut);
    var recorded := RecordedKey(w.rows, id, key, cut);
    IndexChunkIs(encode, w, id, key, encode(key), faults, cut);
    if vid: nat :| Issues(s.index, faults, vid) {
      OneIsIssued(s.index, faults, vid);
      if (recorded.Some? ==> encode(recorded.value) == encode(key)) && (w.file.Some? ==> Bound(encode, w.file.value, vid, recorded)) {
        GrownKeepsInv(encode, w, id, key, vid, cut);
      } else {
        assert Identity(w'.rows[id]) == recorded && w'.rows[id].vid == vid;
        assert !(Bound(encode, w'.session.value.index.live, w'.rows[id].vid, Identity(w'.rows[id]))
                 && (w'.file.Some? ==> Bound(encode, w'.file.value, w'.rows[id].vid, Identity(w'.rows[id]))));
      }
    }
  }

  lemma OneIsIssued<V>(s: Index<V>, faults: set<nat>, vid: nat)
    requires Issues(s, faults, vid)
    ensures forall other: nat | Issues(s, faults, other) :: other == vid
  {
    forall other: nat | Issues(s, faults, other)
      ensures other == vid
    {
      assert other < vid ==> other in s.live;
      assert vid < other ==> vid in s.live;
    }
  }

  // ── A row written by half ──────────────────────────────────────────────────

  lemma RowsStayUnique<V>(encode: Key -> V, w: World<V>, id: ChunkId, key: Key, vid: nat, cut: Cut)
    requires w.session.Some? && Inv(encode, w) && w.session.value.index.nextVid <= vid
    ensures UniqueVids(RowsAfter(w.rows, id, key, vid, cut))
    ensures w.file.Some? ==>
              (RowsOk(encode, RowsAfter(w.rows, id, key, vid, cut), w.file.value) <==>
                Bound(encode, w.file.value, vid, RecordedKey(w.rows, id, key, cut)))
  {
    var rows := RowsAfter(w.rows, id, key, vid, cut);
    if w.file.Some? {
      forall other | other in w.rows && other != id
        ensures Bound(encode, w.file.value, rows[other].vid, Identity(rows[other]))
      {
        assert Bound(encode, w.file.value, w.rows[other].vid, Identity(w.rows[other]));
      }
      if !cut.NoRow? {
        assert Identity(rows[id]) == RecordedKey(w.rows, id, key, cut) && rows[id].vid == vid;
        if RowsOk(encode, rows, w.file.value) {
          assert Bound(encode, w.file.value, rows[id].vid, Identity(rows[id]));
        }
      }
    }
  }

  /** A crash right after, or in the middle of, writing a chunk's row takes the unsaved vector
      with it. It leaves a row misbound if and only if the file holds, under the vid issued, a
      vector other than the one the recorded key stands for; whether the chunk changed does not
      matter. */
  lemma CrashKeepsInvIff<V>(encode: Key -> V, w: World<V>, id: ChunkId, key: Key, faults: set<nat>, cut: Cut)
    requires w.session.Some? && Inv(encode, w)
    ensures var recorded := RecordedKey(w.rows, id, key, cut);
            Inv(encode, Next(IndexChunk(w, id, key, encode(key), faults, cut).0, Crash)) <==>
              forall vid: nat | Issues(w.session.value.index, faults, vid) && recorded.Some? && w.file.Some? && vid in w.file.value ::
                w.file.value[vid] == encode(recorded.value)
  {
    IndexChunkIs(encode, w, id, key, encode(key), faults, cut);
    if vid: nat :| Issues(w.session.value.index, faults, vid) {
      OneIsIssued(w.session.value.index, faults, vid);
      RowsStayUnique(encode, w, id, key, vid, cut);
    }
  }

  lemma WithoutFileKeepsInv<V>(encode: Key -> V, w: World<V>)
    requires Inv(encode, w)
    ensures Inv(encode, w.(file := None))
  {
  }

  /** When the process goes on instead and saves, a row is misbound if and only if it was left
      with a key that stands for another vector: its text, backend or context size changed under
      the same model, and the statement that records the new identity failed. What the file held
      before does not matter. */
  lemma SaveKeepsInvIff<V>(encode: Key -> V, w: World<V>, id: ChunkId, key: Key, faults: set<nat>, cut: Cut)
    requires w.session.Some? && Inv(encode, w)
    ensures var recorded := RecordedKey(w.rows, id, key, cut);
            Inv(encode, Next(IndexChunk(w, id, key, encode(key), faults, cut).0, Save(Saved))) <==>
              forall vid: nat | Issues(w.session.value.index, faults, vid) && recorded.Some? :: encode(recorded.value) == encode(key)
  {
    var recorded := RecordedKey(w.rows, id, key, cut);
    var w' := IndexChunk(w, id, key, encode(key), faults, cut).0;
    IndexChunkIs(encode, w, id, key, encode(key), faults, cut);
    if vid: nat :| Issues(w.session.value.index, faults, vid) {
      if recorded.Some? && encode(recorded.value) != encode(key) {
        IdentityLeftBehind(encode, w, id, key, faults, cut, vid);
      } else {
        var bare := w.(file := None);
        WithoutFileKeepsInv(encode, w);
        GrownKeepsInv(encode, bare, id, key, vid, cut);
        FlushKeepsInv(encode, w'.(file := None), Saved);
      }
    } else {
      IndexChunkKeepsInvIff(encode, w, id, key, faults, cut);
      FlushKeepsInv(encode, w', Saved);
    }
  }

  /** The file then answers for the row's key with the vector of the new chunk. */
  lemma IdentityLeftBehind<V>(encode: Key -> V, w: World<V>, id: ChunkId, key: Key, faults: set<nat>, cut: Cut, vid: nat)
    requires w.session.Some? && Inv(encode, w) && Issues(w.session.value.index, faults, vid)
    requires RecordedKey(w.rows, id, key, cut).Some?
    requires encode(RecordedKey(w.rows, id, key, cut).value) != encode(key)
    ensures var w' := Next(IndexChunk(w, id, key, encode(key), faults, cut).0, Save(Saved));
            && cut.NoIdentity? && id in w.rows && id in w'.rows && w'.rows[id] == Row(w.rows[id].stored, key.model, vid)
            && Identity(w'.rows[id]) == w.rows[id].stored
            && w'.file.Some? && vid in w'.file.value && w'.file.value[vid] == encode(key)
            && !Inv(encode, w')
  {
    IndexChunkIs(encode, w, id, key, encode(key), faults, cut);
    var w' := Next(IndexChunk(w, id, key, encode(key), faults, cut).0, Save(Saved));
    assert !Bound(encode, w'.file.value, w'.rows[id].vid, Identity(w'.rows[id]));
  }

  // ── Runs with indexing ─────────────────────────────────────────────────────

  datatype Move<!V> =
    | Do(step: Step<V>)
    | AddDocument(hash: string, keys: seq<Key>, backend: Backend<V>, faults: seq<set<nat>>, cuts: seq<Cut>,
                  upto: nat, dies: bool)

  /** Indexing may stop after any chunk, fail within any row, and the process may die there. */
  ghost function Take<V>(w: World<V>, move: Move<V>): World<V> {
    match move
    case Do(step) => Next(w, step)
    case AddDocument(hash, keys, backend, faults, cuts, upto, dies) =>
      if upto > |keys| then w
      else
        var w' := IndexDocument(w, hash, keys, backend, faults, cuts, upto);
        if dies then Next(w', Crash) else w'
  }

  ghost function TakeAll<V>(w: World<V>, moves: seq<Move<V>>): World<V> {
    if moves == [] then w else Take(TakeAll(w, moves[..|moves| - 1]), moves[|moves| - 1])
  }

  ghost predicate HonestMove<V(!new)>(encode: Key -> V, move: Move<V>) {
    match move
    case Do(step) => HonestStep(encode, step)
    case AddDocument(_, _, backend, _, _, _, _) => Honest(encode, backend)
  }

  /** The file holds nothing that the open index could issue a vid over, unless it is what any
      chunk would be given anyway. */
  ghost predicate Covers<V(!new)>(encode: Key -> V, file: map<nat, V>, index: Index<V>) {
    forall vid: nat, key | vid in file && index.nextVid <= vid && vid !in index.live :: file[vid] == encode(key)
  }

  ghost predicate Covered<V(!new)>(encode: Key -> V, w: World<V>) {
    w.session.Some? && w.file.Some? ==> Covers(encode, w.file.value, w.session.value.index)
  }

  /** No row of the document's chunks from `from` on can be left with a key that stands for a
      vector other than the new one: where the identity is not recorded, the one that was there
      is right, or there was none. */
  ghost predicate Identified<V>(encode: Key -> V, rows: Rows, hash: string, keys: seq<Key>, cuts: seq<Cut>, from: nat) {
    forall i: nat | from <= i < |keys| :: KeyFits(encode, RecordedKey(rows, ChunkId(hash, i), keys[i], CutAt(cuts, i)), keys[i])
  }

  ghost predicate KeyFits<V>(encode: Key -> V, recorded: Option<Key>, key: Key) {
    recorded.Some? ==> encode(recorded.value) == encode(key)
  }

  /** An open that cannot read the file finds every vid of it below the counter taken from the
      rows and the floor; evictions name vids of rows, all below the counter; an identity that
      is not recorded was not to change, or the process dies with it. */
  ghost predicate Careful<V(!new)>(encode: Key -> V, w: World<V>, move: Move<V>) {
    match move
    case Do(Open(readable)) =>
      w.session.None? && !readable && w.file.Some? ==>
        forall vid | vid in w.file.value :: vid < OpenSession(w, false).index.nextVid
    case Do(EvictVids(vids)) => w.session.Some? ==> forall vid | vid in vids :: vid < w.session.value.index.nextVid
    case AddDocument(hash, keys, _, _, cuts, _, dies) => dies || Identified(encode, w.rows, hash, keys, cuts, 0)
    case _ => true
  }

  ghost predicate CarefulRun<V(!new)>(encode: Key -> V, w: World<V>, moves: seq<Move<V>>) {
    moves != [] ==>
      var n := |moves| - 1;
      CarefulRun(encode, w, moves[..n]) && HonestMove(encode, moves[n]) && Careful(encode, TakeAll(w, moves[..n]), moves[n])
  }

  lemma GrownIsCovered<V(!new)>(encode: Key -> V, file: map<nat, V>, index: Index<V>, index': Index<V>)
    requires Covers(encode, file, index) && index.nextVid <= index'.nextVid
    requires forall vid | vid in index.live && vid >= index.nextVid :: vid in index'.live
    ensures Covers(encode, file, index')
  {
  }

  lemma IndexChunkKeepsCover<V(!new)>(encode: Key -> V, w: World<V>, id: ChunkId, key: Key, faults: set<nat>, cut: Cut)
    requires w.session.Some? && Inv(encode, w) && Covered(encode, w)
    ensures var (w', ok) := IndexChunk(w, id, key, encode(key), faults, cut);
            && w'.session.Some? && Covered(encode, w') && Inv(encode, Next(w', Crash)) && (ok ==> cut.Whole?)
            && (KeyFits(encode, RecordedKey(w.rows, id, key, cut), key) ==> Inv(encode, w'))
            && (forall other | other != id ::
                  (other in w'.rows <==> other in w.rows) && (other in w.rows ==> w'.rows[other] == w.rows[other]))
  {
    var s := w.session.value;
    var (w', ok) := IndexChunk(w, id, key, encode(key), faults, cut);
    IndexChunkIs(encode, w, id, key, encode(key), faults, cut);
    IndexChunkKeepsInvIff(encode, w, id, key, faults, cut);
    CrashKeepsInvIff(encode, w, id, key, faults, cut);
    if w.file.Some? {
      GrownIsCovered(encode, w.file.value, s.index, w'.session.value.index);
    }
  }

  lemma IdentifiedLater<V>(encode: Key -> V, rows: Rows, rows': Rows, hash: string, keys: seq<Key>, cuts: seq<Cut>, from: nat)
    requires Identified(encode, rows, hash, keys, cuts, from)
    requires forall other | other != ChunkId(hash, from) ::
               (other in rows' <==> other in rows) && (other in rows ==> rows'[other] == rows[other])
    ensures Identified(encode, rows', hash, keys, cuts, from + 1)
  {
    forall i: nat | from + 1 <= i < |keys|
      ensures KeyFits(encode, RecordedKey(rows', ChunkId(hash, i), keys[i], CutAt(cuts, i)), keys[i])
    {
      assert KeyFits(encode, RecordedKey(rows, ChunkId(hash, i), keys[i], CutAt(cuts, i)), keys[i]);
    }
  }

  lemma {:induction false} IndexChunksKeepCover<V(!new)>(
      encode: Key -> V, w: World<V>, hash: string, keys: seq<Key>, vectors: seq<V>, faults: seq<set<nat>>,
      cuts: seq<Cut>, from: nat, to: nat)
    requires w.session.Some? && Inv(encode, w) && Covered(encode, w)
    requires from <= to <= |keys| == |vectors| && forall i | 0 <= i < |keys| :: vectors[i] == encode(keys[i])
    ensures var w' := IndexChunks(w, hash, keys, vectors, faults, cuts, from, to);
            && Covered(encode, w') && Inv(encode, Next(w', Crash))
            && (Identified(encode, w.rows, hash, keys, cuts, from) ==> Inv(encode, w'))
    decreases |keys| - from
  {
    if from < to {
      var (id, f, cut) := (ChunkId(hash, from), FaultsAt(faults, from), CutAt(cuts, from));
      IndexChunkKeepsCover(encode, w, id, keys[from], f, cut);
      var (w', ok) := IndexChunk(w, id, keys[from], vectors[from], f, cut);
      if ok {
        IndexChunksKeepCover(encode, w', hash, keys, vectors, faults, cuts, from + 1, to);
      }
      if Identified(encode, w.rows, hash, keys, cuts, from) {
        assert KeyFits(encode, RecordedKey(w.rows, id, keys[from], cut), keys[from]);
        IdentifiedLater(encode, w.rows, w'.rows, hash, keys, cuts, from);
      }
    }
  }

  /** While the file is covered, indexing a document keeps every row bound wherever it ends, if the
      process dies there or no identity is left behind. */
  lemma IndexDocumentKeepsCover<V(!new)>(encode: Key -> V, w: World<V>, hash: string, keys: seq<Key>,
                                         backend: Backend<V>, faults: seq<set<nat>>, cuts: seq<Cut>, upto: nat)
    requires Inv(encode, w) && Covered(encode, w) && Honest(encode, backend) && upto <= |keys|
    ensures var w' := IndexDocument(w, hash, keys, backend, faults, cuts, upto);
            && Covered(encode, w') && Inv(encode, Next(w', Crash))
            && (Identified(encode, w.rows, hash, keys, cuts, 0) ==> Inv(encode, w'))
  {
    if w.session.Some? {
      ReuseRefinesEmbedding(encode, w, keys, backend);
      var vectors := EmbedPassages(w.session.value, w.rows, keys, backend);
      if vectors.Some? {
        IndexChunksKeepCover(encode, w, hash, keys, vectors.value, faults, cuts, 0, upto);
      }
    }
  }

  lemma EmbedKeepsCover<V(!new)>(encode: Key -> V, w: World<V>, hash: string, keys: seq<Key>, backend: Backend<V>,
                                 faults: seq<set<nat>>)
    requires w.session.Some? && Inv(encode, w) && Covered(encode, w)
    ensures Covered(encode, Next(w, Embed(hash, keys, backend, faults)))
  {
    var s := w.session.value;
    var s' := EmbedDocument(s, w.rows, hash, keys, backend, faults);
    var r := EmbedPassages(s, w.rows, keys, backend);
    if r.Some? {
      AddAllIsAllOrNothing(s.index, r.value, faults);
      var (index, vids) := AddAll(s.index, r.value, faults);
      var stale := if vids.Some? then VidsOf(w.rows, hash) else {};
      assert s'.index.nextVid == index.nextVid && s'.index.live == index.live - stale;
      assert forall vid | vid in stale :: vid < s.index.nextVid;
      assert forall vid | vid in s.index.live && vid >= s.index.nextVid :: vid in s'.index.live;
    }
    if w.file.Some? {
      GrownIsCovered(encode, w.file.value, s.index, s'.index);
    }
  }

  lemma StepKeepsCover<V(!new)>(encode: Key -> V, w: World<V>, step: Step<V>)
    requires Inv(encode, w) && Covered(encode, w) && Careful(encode, w, Do(step))
    ensures Covered(encode, Next(w, step))
  {
    match step
    case Open(readable) =>
    case Embed(hash, keys, backend, faults) =>
      if w.session.Some? {
        EmbedKeepsCover(encode, w, hash, keys, backend, faults);
      }
    case EvictVids(vids) =>
      if w.session.Some? && w.file.Some? {
        GrownIsCovered(encode, w.file.value, w.session.value.index, Next(w, step).session.value.index);
      }
    case Save(outcome) =>
    case Commit =>
    case DeleteRows(ids) =>
    case RemoveFile =>
    case Crash =>
  }

  lemma {:induction false} CarefulRunKeepsInv<V(!new)>(encode: Key -> V, w: World<V>, moves: seq<Move<V>>)
    requires Inv(encode, w) && Covered(encode, w) && CarefulRun(encode, w, moves)
    ensures Inv(encode, TakeAll(w, moves)) && Covered(encode, TakeAll(w, moves))
  {
    if moves != [] {
      var before, move := TakeAll(w, moves[..|moves| - 1]), moves[|moves| - 1];
      CarefulRunKeepsInv(encode, w, moves[..|moves| - 1]);
      match move
      case Do(step) =>
        StepKeepsInv(encode, before, step);
        StepKeepsCover(encode, before, step);
      case AddDocument(hash, keys, backend, faults, cuts, upto, dies) =>
        if upto <= |keys| {
          IndexDocumentKeepsCover(encode, before, hash, keys, backend, faults, cuts, upto);
        }
    }
  }

  /** Whatever is embedded, indexed, saved, deleted and interrupted: as long as no load fails while
      the file holds a vid at or above the counter, and no live process leaves a row with the
      identity of another chunk, no row's vid is ever bound to another vector. */
  lemma IndexedRowsNeverMisbound<V(!new)>(encode: Key -> V, moves: seq<Move<V>>, id: ChunkId)
    requires CarefulRun(encode, Empty<V>(), moves) && id in TakeAll(Empty<V>(), moves).rows
    ensures var w := TakeAll(Empty<V>(), moves);
            var row := w.rows[id];
            Identity(row).Some? ==>
              && (w.file.Some? && row.vid in w.file.value ==> w.file.value[row.vid] == encode(Identity(row).value))
              && (w.session.Some? && row.vid in w.session.value.index.live ==>
                    w.session.value.index.live[row.vid] == encode(Identity(row).value))
  {
    CarefulRunKeepsInv(encode, Empty<V>(), moves);
    var w := TakeAll(Empty<V>(), moves);
    assert w.file.Some? ==> Bound(encode, w.file.value, w.rows[id].vid, Identity(w.rows[id]));
    assert w.session.Some? ==> Bound(encode, w.session.value.index.live, w.rows[id].vid, Identity(w.rows[id]));
  }

  // ── When a failed load is harmless ─────────────────────────────────────────

  /** Nothing at or above the counter is taken. */
  ghost predicate Clear<V>(w: World<V>, next: nat) {
    && w.session.Some? && w.session.value.index.nextVid == next
    && (forall vid | vid in w.session.value.index.live :: vid < next)
  }

  lemma ClearChunk<V>(w: World<V>, id: ChunkId, key: Key, vector: V, cut: Cut, next: nat)
    requires Clear(w, next) && forall other | other in w.rows :: w.rows[other].vid < next
    ensures var (w', ok) := IndexChunk(w, id, key, vector, {}, cut);
            && ok == cut.Whole? && w'.rows == RowsAfter(w.rows, id, key, next, cut) && w'.file == w.file
            && w'.session == Some(Grow(w.session.value, next, vector)) && Clear(w', next + 1)
            && (forall other | other in w'.rows :: w'.rows[other].vid < next + 1)
  {
    var index := w.session.value.index;
    AddFindsFirstFree(index, vector, {}, 0, next);
    assert FirstFree(index, next);
    WriteRowIs(w.rows, id, key, next, cut);
  }

  /** From a clear counter the chunks are issued one vid after the other. */
  lemma {:induction false} ClearChunks<V>(w: World<V>, hash: string, keys: seq<Key>, vectors: seq<V>,
                                          from: nat, to: nat, next: nat)
    requires from < to <= |keys| == |vectors|
    requires Clear(w, next) && forall other | other in w.rows :: w.rows[other].vid < next
    ensures var w' := IndexChunks(w, hash, keys, vectors, [], [], from, to);
            && ChunkId(hash, to - 1) in w'.rows && w'.file == w.file && w'.session.Some?
            && w'.rows[ChunkId(hash, to - 1)] == RowOf(keys[to - 1], next + (to - 1 - from))
    decreases |keys| - from
  {
    ClearChunk(w, ChunkId(hash, from), keys[from], vectors[from], Whole, next);
    var (w', _) := IndexChunk(w, ChunkId(hash, from), keys[from], vectors[from], {}, Whole);
    if from + 1 < to {
      ClearChunks(w', hash, keys, vectors, from + 1, to, next + 1);
    }
  }

  /** A backend that answers every batch in full. */
  function Full<V>(encode: Key -> V): Backend<V> {
    (keys: seq<Key>) => Some(seq(|keys|, i requires 0 <= i < |keys| => encode(keys[i])))
  }

  lemma FullAnswers<V(!new)>(encode: Key -> V, w: World<V>, keys: seq<Key>)
    requires w.session.Some? && Inv(encode, w)
    ensures EmbedPassages(w.session.value, w.rows, keys, Full(encode)).Some?
  {
  }

  /** After a failed load, a document with enough chunks is issued a vid the file still holds. */
  lemma FailedLoadReissues<V(!new)>(encode: Key -> V, w: World<V>, hash: string, keys: seq<Key>, vid: nat)
    requires Inv(encode, w) && w.session.None? && w.file.Some?
    requires keys != [] && vid == OpenSession(w, false).index.nextVid + |keys| - 1
    ensures var w' := IndexDocument(Next(w, Open(false)), hash, keys, Full(encode), [], [], |keys|);
            && w'.file == w.file && w'.session.Some? && ChunkId(hash, |keys| - 1) in w'.rows
            && w'.rows[ChunkId(hash, |keys| - 1)] == RowOf(keys[|keys| - 1], vid)
  {
    var opened_ := Next(w, Open(false));
    StepKeepsInv(encode, w, Open(false));
    var next := opened_.session.value.index.nextVid;
    FullAnswers(encode, opened_, keys);
    var vectors := EmbedPassages(opened_.session.value, w.rows, keys, Full(encode));
    ClearChunks(opened_, hash, keys, vectors.value, 0, |keys|, next);
  }

  /** After a load that fails, indexing keeps every row bound, whatever is indexed and however that
      ends with no identity left behind, if and only if each vid the file holds at or above the
      counter has the one vector all chunks are given. */
  lemma FailedLoadIsHarmlessIff<V(!new)>(encode: Key -> V, w: World<V>)
    requires Inv(encode, w) && w.session.None? && w.file.Some?
    ensures Covers(encode, w.file.value, OpenSession(w, false).index) <==>
              forall hash, keys, backend, faults, cuts, upto: nat |
                Honest(encode, backend) && upto <= |keys| && Identified(encode, w.rows, hash, keys, cuts, 0) ::
                Inv(encode, IndexDocument(Next(w, Open(false)), hash, keys, backend, faults, cuts, upto))
  {
    var opened_ := Next(w, Open(false));
    StepKeepsInv(encode, w, Open(false));
    if Covers(encode, w.file.value, OpenSession(w, false).index) {
      forall hash, keys, backend, faults, cuts, upto: nat |
        Honest(encode, backend) && upto <= |keys| && Identified(encode, w.rows, hash, keys, cuts, 0)
        ensures Inv(encode, IndexDocument(opened_, hash, keys, backend, faults, cuts, upto))
      {
        IndexDocumentKeepsCover(encode, opened_, hash, keys, backend, faults, cuts, upto);
      }
    } else {
      var next := OpenSession(w, false).index.nextVid;
      var vid: nat, key :| vid in w.file.value && next <= vid && w.file.value[vid] != encode(key);
      UncoveredMisbinds(encode, w, "h", key, vid);
    }
  }

  lemma UncoveredMisbinds<V(!new)>(encode: Key -> V, w: World<V>, hash: string, key: Key, vid: nat)
    requires Inv(encode, w) && w.session.None? && w.file.Some? && vid in w.file.value
    requires OpenSession(w, false).index.nextVid <= vid && w.file.value[vid] != encode(key)
    ensures var keys := seq(vid - OpenSession(w, false).index.nextVid + 1, _ => key);
            Honest(encode, Full(encode)) && Identified(encode, w.rows, hash, keys, [], 0) &&
            !Inv(encode, IndexDocument(Next(w, Open(false)), hash, keys, Full(encode), [], [], |keys|))
  {
    var keys := seq(vid - OpenSession(w, false).index.nextVid + 1, _ => key);
    FailedLoadReissues(encode, w, hash, keys, vid);
    var w' := IndexDocument(Next(w, Open(false)), hash, keys, Full(encode), [], [], |keys|);
    var id := ChunkId(hash, |keys| - 1);
    assert !Bound(encode, w'.file.value, w'.rows[id].vid, Identity(w'.rows[id]));
  }

  // ── A run that ends misbound ───────────────────────────────────────────────

  /** Embed one document and crash between the save and the commit; let the next load fail, index
      another document and crash again. The file, readable once more, then answers for the new
      document's row with the vector of the old one. */
  function MisbindingRun<V>(encode: Key -> V, old_: Key, new_: Key): seq<Move<V>> {
    UpToCrash(encode, old_) + [Do(Open(false))] + [Adding(encode, new_)] + [Do(Crash)] + [Do(Open(true))]
  }

  function UpToCrash<V>(encode: Key -> V, old_: Key): seq<Move<V>> {
    [Do(Open(true)), Do(Embed("old", [old_], Full(encode), [])), Do(Save(Saved)), Do(Crash)]
  }

  function Adding<V>(encode: Key -> V, new_: Key): Move<V> {
    AddDocument("new", [new_], Full(encode), [], [], 1, false)
  }

  lemma TakeFour<V>(w: World<V>, a: Move<V>, b: Move<V>, c: Move<V>, d: Move<V>)
    ensures TakeAll(w, [a, b, c, d]) == Take(Take(Take(Take(w, a), b), c), d)
  {
    TakeFourMore(w, [], a, b, c, d);
    assert [] + [a] + [b] + [c] + [d] == [a, b, c, d];
    assert TakeAll(w, []) == w;
  }

  lemma TakeFourMore<V>(w: World<V>, first: seq<Move<V>>, a: Move<V>, b: Move<V>, c: Move<V>, d: Move<V>)
    ensures TakeAll(w, first + [a] + [b] + [c] + [d]) == Take(Take(Take(Take(TakeAll(w, first), a), b), c), d)
  {
    TakeMore(w, first, a);
    TakeMore(w, first + [a], b);
    TakeMore(w, first + [a] + [b], c);
    TakeMore(w, first + [a] + [b] + [c], d);
  }

  lemma TakeMore<V>(w: World<V>, moves: seq<Move<V>>, move: Move<V>)
    ensures TakeAll(w, moves + [move]) == Take(TakeAll(w, moves), move)
  {
    assert (moves + [move])[..|moves|] == moves;
  }

  /** What a first open finds. */
  function Fresh<V>(): Session<V> {
    Session(Index(map[], 0), false, map[], [], {})
  }

  lemma FirstOpen<V>(file: Option<map<nat, V>>, readable: bool)
    requires file.None? || !readable
    ensures OpenSession(World(EMPTY_ROWS, 0, file, None), readable) == Fresh()
  {
    var c := Ceiling(RowVids(EMPTY_ROWS));
    assert c == 0;
  }

  lemma AddOne<V>(vector: V)
    ensures AddAll(Index(map[], 0), [vector], []) == (Index(map[0 := vector], 1), Some([0]))
  {
    var index := Index(map[0 := vector], 1);
    assert AddFrom(Index(map[], 0), vector, {}, 0) == (index, Added(0));
    assert AddRest(index, [vector], [], [0]) == (index, Some([0]));
    assert [] + [0] == [0];
  }

  lemma FirstEmbed<V(!new)>(encode: Key -> V, old_: Key)
    ensures var s := EmbedDocument(Fresh(), EMPTY_ROWS, "old", [old_], Full(encode), []);
            s.dirty && s.index.live == map[0 := encode(old_)]
  {
    var w := World(EMPTY_ROWS, 0, None, Some(Fresh()));
    assert Inv(encode, w);
    FullAnswers(encode, w, [old_]);
    ReuseRefinesEmbedding(encode, w, [old_], Full(encode));
    var vectors := EmbedPassages(Fresh(), EMPTY_ROWS, [old_], Full(encode));
    assert vectors.value == [encode(old_)];
    AddOne(encode(old_));
    assert VidsOf(EMPTY_ROWS, "old") == {};
  }

  /** Up to the first crash: vid 0 is in the file and in no row. */
  lemma SavedNotCommitted<V(!new)>(encode: Key -> V, old_: Key)
    ensures TakeAll(Empty<V>(), UpToCrash(encode, old_)) == World(EMPTY_ROWS, 0, Some(map[0 := encode(old_)]), None)
  {
    var embed: Move<V> := Do(Embed("old", [old_], Full(encode), []));
    TakeFour(Empty<V>(), Do(Open(true)), embed, Do(Save(Saved)), Do(Crash));
    FirstOpen<V>(None, true);
    var one := World(EMPTY_ROWS, 0, None, Some(Fresh<V>()));
    assert Take(Empty<V>(), Do(Open(true))) == one;
    FirstEmbed(encode, old_);
  }

  lemma CrashThenOpen<V>(w: World<V>)
    requires w.session.Some? && w.file.Some?
    ensures var w' := Take(Take(w, Do(Crash)), Do(Open(true)));
            w'.rows == w.rows && w'.file == w.file && w'.session.Some? && w'.session.value.index.live == w.file.value
  {
  }

  /** From the first crash on. */
  lemma IndexedAfterCrash<V(!new)>(encode: Key -> V, old_: Key, new_: Key)
    ensures var crashed := World(EMPTY_ROWS, 0, Some(map[0 := encode(old_)]), None);
            var w := Take(Take(crashed, Do(Open(false))), Adding(encode, new_));
            var id := ChunkId("new", 0);
            w.session.Some? && w.file == crashed.file && id in w.rows && w.rows[id] == RowOf(new_, 0)
  {
    var crashed := World(EMPTY_ROWS, 0, Some(map[0 := encode(old_)]), None);
    FirstOpen(crashed.file, false);
    assert Inv(encode, crashed);
    FailedLoadReissues(encode, crashed, "new", [new_], 0);
    TakeOpen(crashed);
    TakeDocument(Next(crashed, Open(false)), Adding(encode, new_));
  }

  lemma TakeOpen<V>(w: World<V>)
    ensures Take(w, Do(Open(false))) == Next(w, Open(false))
  {
  }

  lemma TakeDocument<V>(w: World<V>, move: Move<V>)
    requires move.AddDocument? && move.upto <= |move.keys| && !move.dies
    ensures Take(w, move) == IndexDocument(w, move.hash, move.keys, move.backend, move.faults, move.cuts, move.upto)
  {
  }

  /** Every embedding that tells two chunks apart has a run, from an empty store, that ends with a
      row bound to a vector other than its own, in the file and in the open index. */
  lemma IndexingAfterFailedLoadMisbinds<V(!new)>(encode: Key -> V, old_: Key, new_: Key)
    requires encode(old_) != encode(new_)
    ensures var w := TakeAll(Empty<V>(), MisbindingRun(encode, old_, new_));
            var id := ChunkId("new", 0);
            && id in w.rows && w.rows[id] == RowOf(new_, 0)
            && w.file.Some? && 0 in w.file.value && w.file.value[0] == encode(old_) != encode(new_)
            && w.session.Some? && 0 in w.session.value.index.live && w.session.value.index.live[0] == encode(old_)
  {
    var first, add := UpToCrash(encode, old_), Adding(encode, new_);
    var crashed := World(EMPTY_ROWS, 0, Some(map[0 := encode(old_)]), None);
    SavedNotCommitted(encode, old_);
    IndexedAfterCrash(encode, old_, new_);
    CrashThenOpen(Take(Take(crashed, Do(Open(false))), add));
    TakeFourMore(Empty<V>(), first, Do(Open(false)), add, Do(Crash), Do(Open(true)));
  }

  // ── A run that leaves an identity behind ───────────────────────────────────

  /** Index a text, then index it again for another backend or context size of the same model, with
      the new identity not recorded; save, and open again. */
  function LeavingRun<V>(encode: Key -> V, old_: Key, new_: Key): seq<Move<V>> {
    [] + [Do(Open(true))] + [Indexing(encode, old_, Whole)] + [Indexing(encode, new_, NoIdentity)] + [Do(Save(Saved))]
    + [Do(Crash)] + [Do(Open(true))]
  }

  function Indexing<V>(encode: Key -> V, key: Key, cut: Cut): Move<V> {
    AddDocument("h", [key], Full(encode), [], [cut], 1, false)
  }

  lemma OneChunk<V(!new)>(encode: Key -> V, w: World<V>, key: Key, cut: Cut, next: nat)
    requires Inv(encode, w) && Clear(w, next)
    ensures var w' := Take(w, Indexing(encode, key, cut));
            && w'.rows == RowsAfter(w.rows, ChunkId("h", 0), key, next, cut) && w' == w.(rows := w'.rows, session := w'.session)
            && w'.session == Some(Grow(w.session.value, next, encode(key))) && Clear(w', next + 1)
  {
    FullAnswers(encode, w, [key]);
    ReuseRefinesEmbedding(encode, w, [key], Full(encode));
    var vectors := EmbedPassages(w.session.value, w.rows, [key], Full(encode)).value;
    TakeDocument(w, Indexing(encode, key, cut));
    ClearChunk(w, ChunkId("h", 0), key, encode(key), cut, next);
    var (w', ok) := IndexChunk(w, ChunkId("h", 0), [key][0], vectors[0], FaultsAt([], 0), CutAt([cut], 0));
    assert IndexChunks(w, "h", [key], vectors, [], [cut], 0, 1) == w';
  }

  /** The world after the first document. */
  function Indexed<V>(encode: Key -> V, key: Key): World<V> {
    World(EMPTY_ROWS[ChunkId("h", 0) := RowOf(key, 0)], 0, None, Some(Grow(Fresh(), 0, encode(key))))
  }

  lemma OpensEmpty<V>(encode: Key -> V)
    ensures var w := Take(Empty<V>(), Do(Open(true)));
            w == World(EMPTY_ROWS, 0, None, Some(Fresh())) && Inv(encode, w) && Clear(w, 0)
  {
    FirstOpen<V>(None, true);
  }

  lemma FirstIsIndexed<V(!new)>(encode: Key -> V, key: Key)
    ensures var w := Take(Take(Empty<V>(), Do(Open(true))), Indexing(encode, key, Whole));
            w == Indexed(encode, key) && Inv(encode, w) && Clear(w, 1)
  {
    var open_ := Take(Empty<V>(), Do(Open(true)));
    OpensEmpty<V>(encode);
    OneChunk(encode, open_, key, Whole, 0);
    GrownKeepsInv(encode, open_, ChunkId("h", 0), key, 0, Whole);
    OneIsIndexed(open_, Take(open_, Indexing(encode, key, Whole)), encode, key);
  }

  lemma OneIsIndexed<V>(open_: World<V>, w: World<V>, encode: Key -> V, key: Key)
    requires open_ == World(EMPTY_ROWS, 0, None, Some(Fresh()))
    requires w == open_.(rows := w.rows, session := w.session)
    requires w.rows == RowsAfter(EMPTY_ROWS, ChunkId("h", 0), key, 0, Whole) && w.session == Some(Grow(Fresh(), 0, encode(key)))
    ensures w == Indexed(encode, key)
  {
  }

  /** From the state before a save to the open after the crash that follows. */
  lemma SaveCrashOpen<V>(w: World<V>)
    requires w.session.Some? && w.session.value.dirty
    ensures var w' := Take(Take(Take(w, Do(Save(Saved))), Do(Crash)), Do(Open(true)));
            var live := w.session.value.index.live;
            && w'.rows == w.rows && w'.file == Some(live)
            && w'.session.Some? && w'.session.value.index.live == live && w'.session.value.staged == map[]
  {
  }

  lemma StoredIsReused<V>(s: Session<V>, rows: Rows, id: ChunkId, key: Key, vid: nat)
    requires s.staged == map[] && rows == map[id := RowOf(key, vid)] && vid in s.index.live
    ensures Reusable(s, rows, key) == Some(s.index.live[vid])
  {
    assert Identity(rows[id]) == Some(key) && vid in StoredVids(rows, key);
    assert StoredVid(rows, key, vid);
  }

  lemma BeforeSave<V(!new)>(encode: Key -> V, old_: Key, new_: Key)
    requires old_.model == new_.model
    ensures var w := Take(Take(Take(Empty<V>(), Do(Open(true))), Indexing(encode, old_, Whole)), Indexing(encode, new_, NoIdentity));
            && w.rows == map[ChunkId("h", 0) := RowOf(old_, 1)]
            && w.session.Some? && w.session.value.dirty
            && 1 in w.session.value.index.live && w.session.value.index.live[1] == encode(new_)
  {
    var one := Indexed(encode, old_);
    FirstIsIndexed(encode, old_);
    OneChunk(encode, one, new_, NoIdentity, 1);
    assert RowsAfter(one.rows, ChunkId("h", 0), new_, 1, NoIdentity) == map[ChunkId("h", 0) := RowOf(old_, 1)];
  }

  /** The row then answers for the old identity with the new vector, in the file and in memory, and
      the next embedding of an old chunk takes that vector over. */
  lemma LostIdentityMisbinds<V(!new)>(encode: Key -> V, old_: Key, new_: Key)
    requires encode(old_) != encode(new_) && old_.model == new_.model
    ensures var w := TakeAll(Empty<V>(), LeavingRun(encode, old_, new_));
            var id := ChunkId("h", 0);
            && id in w.rows && w.rows[id] == RowOf(old_, 1)
            && w.file.Some? && 1 in w.file.value && w.file.value[1] == encode(new_) != encode(old_)
            && w.session.Some? && Reusable(w.session.value, w.rows, old_) == Some(encode(new_))
  {
    var a, b, c: Move<V> := Do(Open(true)), Indexing(encode, old_, Whole), Indexing(encode, new_, NoIdentity);
    var two := Take(Take(Take(Empty<V>(), a), b), c);
    BeforeSave(encode, old_, new_);
    SaveCrashOpen(two);
    SixMoves(Empty<V>(), a, b, c);
    var w := Take(Take(Take(two, Do(Save(Saved))), Do(Crash)), Do(Open(true)));
    StoredIsReused(w.session.value, w.rows, ChunkId("h", 0), old_, 1);
  }

  lemma SixMoves<V>(w: World<V>, a: Move<V>, b: Move<V>, c: Move<V>)
    ensures TakeAll(w, [] + [a] + [b] + [c] + [Do(Save(Saved))] + [Do(Crash)] + [Do(Open(true))])
         == Take(Take(Take(Take(Take(Take(w, a), b), c), Do(Save(Saved))), Do(Crash)), Do(Open(true)))
  {
    var first := [] + [a] + [b];
    TakeMore(w, [], a);
    TakeMore(w, [] + [a], b);
    assert TakeAll(w, []) == w;
    TakeFourMore(w, first, c, Do(Save(Saved)), Do(Crash), Do(Open(true)));
  }
}
