/** The query cache (model_cache.rs): two tables that share one recency order and one
    row limit. */
module QueryCache {
  import opened Common

  /** Row keys of both tables; equal keys stand for equal digests, taken to be collision-free. */
  datatype Key = Expansion(prompt: string) | Rerank(query: string, chunk: string)

  datatype Value = Output(text: string) | Score(score: real)

  datatype Write = Write(key: Key, model: string, version: string, value: Value)

  datatype Row = Row(model: string, version: string, value: Value, lastUsed: nat, rowid: nat)

  type Rows = map<Key, Row>

  /** The table number that eviction orders by. */
  function Table(k: Key): nat {
    if k.Expansion? then 0 else 1
  }

  /** `ORDER BY last_used, t, rowid`. */
  predicate Older(rows: Rows, a: Key, b: Key)
    requires a in rows && b in rows
  {
    var r, s := rows[a], rows[b];
    r.lastUsed < s.lastUsed || (r.lastUsed == s.lastUsed &&
      (Table(a) < Table(b) || (Table(a) == Table(b) && r.rowid < s.rowid)))
  }

  /** Rows go by last use; of two last used together expansions go before scores, and in one table the
      row stored earlier. */
  lemma OlderIs(rows: Rows, a: Key, b: Key)
    requires a in rows && b in rows
    ensures rows[a].lastUsed < rows[b].lastUsed ==> Older(rows, a, b) && !Older(rows, b, a)
    ensures rows[a].lastUsed == rows[b].lastUsed && a.Expansion? && b.Rerank? ==> Older(rows, a, b) && !Older(rows, b, a)
    ensures rows[a].lastUsed == rows[b].lastUsed && (a.Expansion? <==> b.Expansion?) ==>
              (Older(rows, a, b) <==> rows[a].rowid < rows[b].rowid)
  {
  }

  // ── Specification: the history of writes ───────────────────────────────────

  function Without(keys: seq<Key>, k: Key): seq<Key> {
    if keys == [] then []
    else Without(keys[..|keys| - 1], k) + (if keys[|keys| - 1] == k then [] else [keys[|keys| - 1]])
  }

  /** The distinct keys of a history, ordered by their last write. */
  function Recent(history: seq<Write>): seq<Key> {
    if history == [] then []
    else
      var w := history[|history| - 1];
      Without(Recent(history[..|history| - 1]), w.key) + [w.key]
  }

  function LastWrite(history: seq<Write>, k: Key): Option<Write> {
    if history == [] then None
    else if history[|history| - 1].key == k then Some(history[|history| - 1])
    else LastWrite(history[..|history| - 1], k)
  }

  function LastN(keys: seq<Key>, n: nat): seq<Key> {
    if |keys| <= n then keys else keys[|keys| - n..]
  }

  /** What a lookup must return: the value last written for the key, when the key is among the
      `limit` most recently written ones and that write used this model and version. */
  function Lookup(history: seq<Write>, limit: nat, k: Key, model: string, version: string): Option<Value> {
    var w := LastWrite(history, k);
    if k in LastN(Recent(history), limit) && w.Some? && w.value.model == model && w.value.version == version then
      Some(w.value.value)
    else None
  }

  // ── Facts about recency ────────────────────────────────────────────────────

  lemma {:induction false} WithoutMembers(keys: seq<Key>, k: Key, x: Key)
    ensures x in Without(keys, k) <==> x in keys && x != k
  {
    if keys != [] {
      var init, last := keys[..|keys| - 1], keys[|keys| - 1];
      WithoutMembers(init, k, x);
      assert keys == init + [last];
    }
  }

  lemma {:induction false} WithoutKeepsDistinct(keys: seq<Key>, k: Key)
    requires NoDuplicates(keys)
    ensures NoDuplicates(Without(keys, k))
    ensures |Without(keys, k)| == if k in keys then |keys| - 1 else |keys|
    ensures k !in keys ==> Without(keys, k) == keys
  {
    if keys != [] {
      var init, last := keys[..|keys| - 1], keys[|keys| - 1];
      assert keys == init + [last] && last !in init;
      WithoutKeepsDistinct(init, k);
      WithoutMembers(init, k, last);
      MemberOfLast(init, last, k);
    }
  }

  lemma MemberOfLast(init: seq<Key>, last: Key, k: Key)
    ensures k in init + [last] <==> k in init || k == last
  {
  }

  lemma {:induction false} WithoutConcat(a: seq<Key>, b: seq<Key>, k: Key)
    ensures Without(a + b, k) == Without(a, k) + Without(b, k)
  {
    if b == [] {
      assert a + b == a;
    } else {
      assert (a + b)[..|a + b| - 1] == a + b[..|b| - 1];
      WithoutConcat(a, b[..|b| - 1], k);
    }
  }

  lemma {:induction false} RecentFacts(history: seq<Write>)
    ensures NoDuplicates(Recent(history))
    ensures forall k :: k in Recent(history) <==> LastWrite(history, k).Some?
  {
    if history != [] {
      var init, w := history[..|history| - 1], history[|history| - 1];
      RecentFacts(init);
      WithoutKeepsDistinct(Recent(init), w.key);
      forall k
        ensures k in Without(Recent(init), w.key) <==> k in Recent(init) && k != w.key
      {
        WithoutMembers(Recent(init), w.key, k);
      }
    }
  }

  /** `order` is the end of the recency order, complete or at least `limit` long. */
  ghost predicate TailOf(order: seq<Key>, recent: seq<Key>, limit: nat) {
    && |order| <= |recent| && order == recent[|recent| - |order|..]
    && (|order| < limit ==> order == recent)
  }

  /** Dropping old keys early and late comes to the same: a write keeps a tail a tail. */
  lemma TouchKeepsTail(order: seq<Key>, recent: seq<Key>, limit: nat, k: Key)
    requires TailOf(order, recent, limit) && NoDuplicates(recent)
    ensures TailOf(Without(order, k) + [k], Without(recent, k) + [k], limit)
  {
    var dropped := recent[..|recent| - |order|];
    assert recent == dropped + order;
    assert |order| < limit ==> dropped == [];
    assert NoDuplicates(order);
    TouchConcat(dropped, order, k);
    TouchedLength(order, k);
    TailOfConcat(Without(dropped, k), Without(order, k) + [k], limit);
  }

  lemma TouchConcat(a: seq<Key>, b: seq<Key>, k: Key)
    ensures Without(a + b, k) + [k] == Without(a, k) + (Without(b, k) + [k])
    ensures a == [] ==> Without(a, k) == []
  {
    WithoutConcat(a, b, k);
  }

  lemma TouchedLength(order: seq<Key>, k: Key)
    requires NoDuplicates(order)
    ensures |Without(order, k) + [k]| >= |order|
  {
    WithoutKeepsDistinct(order, k);
  }

  lemma TailOfConcat(a: seq<Key>, b: seq<Key>, limit: nat)
    requires |b| >= limit || a == []
    ensures TailOf(b, a + b, limit)
  {
  }

  lemma LastNOfTail(keys: seq<Key>, n: nat)
    requires |keys| > n
    ensures LastN(keys[1..], n) == LastN(keys, n)
  {
  }

  lemma CutTail(order: seq<Key>, recent: seq<Key>, limit: nat)
    requires TailOf(order, recent, limit)
    ensures LastN(order, limit) == LastN(recent, limit) && TailOf(LastN(recent, limit), recent, limit)
  {
  }

  // ── What is kept ───────────────────────────────────────────────────────────

  function KeysOf(history: seq<Write>): set<Key> {
    set w | w in history :: w.key
  }

  /** Write `i` is the last one of its key. */
  predicate LastOfKey(history: seq<Write>, i: nat) {
    i < |history| && forall j | i < j < |history| :: history[j].key != history[i].key
  }

  lemma {:induction false} LastWriteIs(history: seq<Write>, k: Key)
    ensures LastWrite(history, k).Some? <==> k in KeysOf(history)
    ensures forall i: nat | LastOfKey(history, i) && history[i].key == k :: LastWrite(history, k) == Some(history[i])
    ensures LastWrite(history, k).Some? ==> exists i: nat :: LastOfKey(history, i) && history[i].key == k
  {
    if history != [] {
      var n := |history| - 1;
      var init, last := history[..n], history[n];
      LastWriteIs(init, k);
      assert history == init + [last];
      assert KeysOf(history) == KeysOf(init) + {last.key};
      if last.key == k {
        assert LastOfKey(history, n);
      } else {
        forall i: nat | i < n && history[i].key == k
          ensures LastOfKey(history, i) <==> LastOfKey(init, i)
        {
          assert LastOfKey(init, i) ==> forall j | i < j < n :: init[j].key != init[i].key;
        }
      }
    }
  }

  /** How many other keys were written after write `i`. */
  function After(history: seq<Write>, i: nat): set<Key>
    requires i < |history|
  {
    KeysOf(history[i + 1..])
  }

  lemma WithoutAround(before: seq<Key>, k: Key, later: seq<Key>, x: Key)
    requires x != k
    ensures Without(before + [k] + later, x) == Without(before, x) + [k] + Without(later, x)
  {
    WithoutConcat(before + [k], later, x);
    WithoutConcat(before, [k], x);
    assert [k][..0] == [];
    assert Without([k], x) == [k];
  }

  /** The key of a last write stands in the order just before the keys written after it. */
  lemma {:induction false} RecentSplits(history: seq<Write>, i: nat) returns (before: seq<Key>)
    requires LastOfKey(history, i)
    ensures Recent(history) == before + [history[i].key] + Later(history, i)
    decreases |history|
  {
    var n := |history| - 1;
    var init, k := history[..n], history[i].key;
    if i == n {
      before := Without(Recent(init), k);
      assert history[i + 1..] == [];
      assert Recent(history) == before + [k] + [];
    } else {
      assert LastOfKey(init, i) && init[i] == history[i];
      var shorter := RecentSplits(init, i);
      before := Without(shorter, history[n].key);
      SplitsMore(history, i, shorter);
    }
  }

  lemma SplitsMore(history: seq<Write>, i: nat, shorter: seq<Key>)
    requires LastOfKey(history, i) && i < |history| - 1
    requires Recent(history[..|history| - 1]) == shorter + [history[i].key] + Later(history[..|history| - 1], i)
    ensures Recent(history) == Without(shorter, history[|history| - 1].key) + [history[i].key] + Later(history, i)
  {
    var k, x, later := history[i].key, history[|history| - 1].key, Later(history[..|history| - 1], i);
    assert x != k;
    LaterGrows(history, i);
    WithoutAround(shorter, k, later, x);
    AppendLater(Without(shorter, x), k, Without(later, x), x);
  }

  lemma AppendLater(before: seq<Key>, k: Key, later: seq<Key>, x: Key)
    ensures before + [k] + later + [x] == before + [k] + (later + [x])
  {
  }

  /** The keys written after write `i`, by their last write. */
  function Later(history: seq<Write>, i: nat): seq<Key>
    requires i < |history|
  {
    Recent(history[i + 1..])
  }

  lemma LaterGrows(history: seq<Write>, i: nat)
    requires i + 1 < |history|
    ensures var n := |history| - 1;
            Later(history, i) == Without(Later(history[..n], i), history[n].key) + [history[n].key]
  {
    var n := |history| - 1;
    var rest := history[i + 1..];
    assert rest[..|rest| - 1] == history[..n][i + 1..] && rest[|rest| - 1] == history[n];
  }

  lemma LaterAre(history: seq<Write>, i: nat)
    requires LastOfKey(history, i)
    ensures |Later(history, i)| == |After(history, i)| && history[i].key !in Later(history, i)
  {
    var rest := history[i + 1..];
    RecentIsOfKeys(rest);
    assert forall w | w in rest :: w.key != history[i].key;
  }

  lemma RecentIsOfKeys(history: seq<Write>)
    ensures |Recent(history)| == |KeysOf(history)| && forall k :: k in Recent(history) <==> k in KeysOf(history)
  {
    RecentFacts(history);
    RecentMembers(history);
    DistinctSize(Recent(history));
    assert Elements(Recent(history)) == KeysOf(history);
  }

  lemma {:induction false} RecentMembers(history: seq<Write>)
    ensures forall k :: k in Recent(history) <==> k in KeysOf(history)
  {
    if history != [] {
      var init, last := history[..|history| - 1], history[|history| - 1];
      RecentMembers(init);
      assert history == init + [last];
      forall k
        ensures k in Recent(history) <==> k in KeysOf(history)
      {
        WithoutMembers(Recent(init), last.key, k);
      }
    }
  }

  /** A key is kept if and only if fewer than `limit` other keys were written after its last write. */
  lemma KeptIff(history: seq<Write>, limit: nat, i: nat)
    requires LastOfKey(history, i)
    ensures history[i].key in LastN(Recent(history), limit) <==> |After(history, i)| < limit
  {
    var k := history[i].key;
    var before := RecentSplits(history, i);
    LaterAre(history, i);
    RecentFacts(history);
    InTail(before, k, Later(history, i), limit);
  }

  lemma InTail(before: seq<Key>, k: Key, later: seq<Key>, limit: nat)
    requires NoDuplicates(before + [k] + later) && k !in later
    ensures k in LastN(before + [k] + later, limit) <==> |later| < limit
  {
    var all := before + [k] + later;
    assert all[|before|] == k;
    var from := if |all| <= limit then 0 else |all| - limit;
    assert LastN(all, limit) == all[from..];
    if from <= |before| {
      assert all[from..][|before| - from] == k;
    } else {
      assert all[from..] == later[from - |before| - 1..];
    }
  }

  /** A lookup gives a value if and only if the key was written, fewer than `limit` others after it, and
      the last write used this model and version; it is the value of that write. */
  lemma LookupIff(history: seq<Write>, limit: nat, k: Key, model: string, version: string, value: Value)
    ensures Lookup(history, limit, k, model, version) == Some(value) <==>
              exists i: nat ::
                && LastOfKey(history, i) && history[i].key == k && |After(history, i)| < limit
                && history[i].model == model && history[i].version == version && history[i].value == value
  {
    LastWriteIs(history, k);
    if Lookup(history, limit, k, model, version) == Some(value) {
      var i: nat :| LastOfKey(history, i) && history[i].key == k;
      KeptIff(history, limit, i);
    }
    if i: nat :| LastOfKey(history, i) && history[i].key == k && |After(history, i)| < limit
                 && history[i].model == model && history[i].version == version && history[i].value == value {
      KeptIff(history, limit, i);
    }
  }

  // ── The cache ──────────────────────────────────────────────────────────────

  class ModelCache {
    var rows: Rows
    const maxRows: nat
    ghost var history: seq<Write>
    ghost var order: seq<Key>

    ghost predicate Valid()
      reads this
    {
      Holds(rows, history, order) && order == LastN(Recent(history), maxRows)
    }

    constructor (maxRows: nat)
      ensures Valid() && history == [] && this.maxRows == maxRows
    {
      this.rows, this.maxRows, this.history, this.order := map[], maxRows, [], [];
    }

    /** The stored keys are exactly the `maxRows` most recently written distinct ones. */
    lemma KeysAreTheMostRecent()
      requires Valid()
      ensures |rows| <= maxRows && forall k :: k in rows <==> k in LastN(Recent(history), maxRows)
    {
      RowsMatchOrder(rows, history, order);
    }

    method Get(k: Key, model: string, version: string) returns (value: Option<Value>)
      requires Valid()
      ensures value == Lookup(history, maxRows, k, model, version)
    {
      if k in rows && rows[k].model == model && rows[k].version == version {
        return Some(rows[k].value);
      }
      return None;
    }

    /** One more than the newest `last_used` in either table; 1 when both are empty. */
    method NextTick() returns (tick: nat)
      ensures tick > 0 && forall k | k in rows :: rows[k].lastUsed < tick
      ensures tick == 1 || exists k :: k in rows && rows[k].lastUsed == tick - 1
    {
      var newest := 0;
      var left := rows.Keys;
      while left != {}
        invariant newest == 0 || exists k :: k in rows && rows[k].lastUsed == newest
        invariant left <= rows.Keys && forall k | k in rows && k !in left :: rows[k].lastUsed <= newest
        decreases |left|
      {
        var k :| k in left;
        left := left - {k};
        if rows[k].lastUsed > newest {
          newest := rows[k].lastUsed;
        }
      }
      return newest + 1;
    }

    /** The row id SQLite gives a new row of table `t`: one more than the largest there. */
    method NextRowid(t: nat) returns (rowid: nat)
      ensures forall k | k in rows && Table(k) == t :: rows[k].rowid < rowid
    {
      var largest := 0;
      var left := rows.Keys;
      while left != {}
        invariant left <= rows.Keys
        invariant forall k | k in rows && k !in left && Table(k) == t :: rows[k].rowid <= largest
        decreases |left|
      {
        var k :| k in left;
        left := left - {k};
        if Table(k) == t && rows[k].rowid > largest {
          largest := rows[k].rowid;
        }
      }
      return largest + 1;
    }

    /** `INSERT OR REPLACE` of one row, within a write that uses `tick`. */
    method InsertOrReplace(w: Write, tick: nat)
      requires Cached(rows, history, order, maxRows) && NoneAfter(rows, tick, Table(w.key))
      modifies this
      ensures Cached(rows, history, order, maxRows) && NoneAfter(rows, tick, Table(w.key))
      ensures history == old(history) + [w]
    {
      var rowid := NextRowid(Table(w.key));
      var row := Row(w.model, w.version, w.value, tick, rowid);
      InsertKeepsCached(rows, history, order, maxRows, w, row);
      rows := rows[w.key := row];
      history := history + [w];
      order := Without(order, w.key) + [w.key];
    }

    /** `evict`: delete the oldest rows until at most `maxRows` remain. */
    method Evict()
      requires Cached(rows, history, order, maxRows)
      modifies this`rows, this`order
      ensures Valid()
    {
      ghost var start := order;
      RowsMatchOrder(rows, history, order);
      while |rows| > maxRows
        invariant Holds(rows, history, order) && |order| == |rows|
        invariant LastN(order, maxRows) == LastN(start, maxRows)
        decreases |rows|
      {
        LastNOfTail(order, maxRows);
        DeleteOldest();
      }
      EvictedIsLastN(rows, history, order, maxRows, start);
    }

    method DeleteOldest()
      requires Holds(rows, history, order) && order != []
      modifies this`rows, this`order
      ensures Holds(rows, history, order) && order == old(order)[1..] && |rows| == |order|
    {
      var victim := Oldest();
      DeleteKeepsOrder(rows, history, order);
      rows := rows - {victim};
      order := order[1..];
      RowsMatchOrder(rows, history, order);
    }

    /** The row that `ORDER BY last_used, t, rowid` puts first. */
    method Oldest() returns (k: Key)
      requires Holds(rows, history, order) && order != []
      ensures k == order[0]
    {
      assert order[0] in order;
      var left := rows.Keys;
      k :| k in left;
      left := left - {k};
      while left != {}
        invariant left <= rows.Keys && k in rows && k !in left
        invariant OldestOf(rows, rows.Keys - left, k)
        decreases |left|
      {
        var x :| x in left;
        OneMoreCandidate(rows, order, left, x, k);
        left := left - {x};
        if Older(rows, x, k) {
          k := x;
        }
      }
      OldestIsFirst(rows, order, k);
    }

    lemma ValidIsCached()
      requires Valid()
      ensures Cached(rows, history, order, maxRows)
    {
      CutTail(Recent(history), Recent(history), maxRows);
    }

    /** Store the output of the generation model for a prompt, most recently used. */
    method PutExpansion(prompt: string, model: string, version: string, output: string)
      requires Valid()
      modifies this
      ensures Valid() && history == old(history) + [Write(Expansion(prompt), model, version, Output(output))]
    {
      ValidIsCached();
      var tick := NextTick();
      InsertOrReplace(Write(Expansion(prompt), model, version, Output(output)), tick);
      Evict();
    }

    /** Store the score of each chunk for a query; `None` stands for a score that is not
        finite, which is not stored. */
    method PutRerankScores(query: string, model: string, version: string, scored: seq<(string, Option<real>)>)
      requires Valid()
      modifies this
      ensures Valid() && history == old(history) + RerankWrites(query, model, version, scored)
    {
      ValidIsCached();
      var tick := NextTick();
      InsertScores(query, model, version, scored, tick);
      Evict();
    }

    method InsertScore(query: string, model: string, version: string, chunk: string, score: Option<real>, tick: nat)
      requires Cached(rows, history, order, maxRows) && NoneAfter(rows, tick, 1)
      modifies this
      ensures Cached(rows, history, order, maxRows) && NoneAfter(rows, tick, 1)
      ensures history == old(history) + ScoreWrites(query, model, version, chunk, score)
    {
      if score.Some? {
        InsertOrReplace(Write(Rerank(query, chunk), model, version, Score(score.value)), tick);
      }
    }

    method InsertScores(query: string, model: string, version: string, scored: seq<(string, Option<real>)>, tick: nat)
      requires Cached(rows, history, order, maxRows) && NoneAfter(rows, tick, 1)
      modifies this
      ensures Cached(rows, history, order, maxRows)
      ensures history == old(history) + RerankWrites(query, model, version, scored)
    {
      for i := 0 to |scored|
        invariant Cached(rows, history, order, maxRows)
        invariant history == old(history) + RerankWrites(query, model, version, scored[..i])
        invariant NoneAfter(rows, tick, 1)
      {
        RerankWritesSnoc(query, model, version, scored, i);
        InsertScore(query, model, version, scored[i].0, scored[i].1, tick);
      }
      assert scored[..|scored|] == scored;
    }
  }

  function RerankWrites(query: string, model: string, version: string, scored: seq<(string, Option<real>)>): seq<Write> {
    if scored == [] then []
    else
      var (chunk, score) := scored[|scored| - 1];
      RerankWrites(query, model, version, scored[..|scored| - 1]) + ScoreWrites(query, model, version, chunk, score)
  }

  function ScoreWrites(query: string, model: string, version: string, chunk: string, score: Option<real>): seq<Write> {
    if score.Some? then [Write(Rerank(query, chunk), model, version, Score(score.value))] else []
  }

  /** How many of the scores are finite. */
  function Finite(scored: seq<(string, Option<real>)>): nat {
    if scored == [] then 0 else Finite(scored[..|scored| - 1]) + if scored[|scored| - 1].1.Some? then 1 else 0
  }

  /** There is one write for each finite score, in order, and none for the others. */
  lemma {:induction false} RerankWritesAre(query: string, model: string, version: string, scored: seq<(string, Option<real>)>, i: nat)
    requires i < |scored|
    ensures var writes := RerankWrites(query, model, version, scored);
            && |writes| == Finite(scored)
            && (scored[i].1.Some? ==>
                  && Finite(scored[..i]) < |writes|
                  && writes[Finite(scored[..i])] == Write(Rerank(query, scored[i].0), model, version, Score(scored[i].1.value)))
    decreases |scored|
  {
    var n := |scored| - 1;
    var init := scored[..n];
    if i < n {
      RerankWritesAre(query, model, version, init, i);
      assert init[..i] == scored[..i] && init[i] == scored[i];
    } else if n > 0 {
      RerankWritesAre(query, model, version, init, n - 1);
    }
  }

  lemma RerankWritesSnoc(query: string, model: string, version: string, scored: seq<(string, Option<real>)>, i: nat)
    requires i < |scored|
    ensures RerankWrites(query, model, version, scored[..i + 1]) ==
            RerankWrites(query, model, version, scored[..i]) + ScoreWrites(query, model, version, scored[i].0, scored[i].1)
  {
    assert scored[..i + 1][..i] == scored[..i];
  }

  /** The table holds the keys of `order`, each as last written, and the recency columns put
      them in that order. */
  ghost predicate Holds(rows: Rows, history: seq<Write>, order: seq<Key>) {
    && NoDuplicates(order) && (forall k :: k in rows <==> k in order)
    && InOrder(rows, order)
    && forall k | k in rows :: AsWritten(rows[k], LastWrite(history, k))
  }

  /** `k` is older than every other of the keys. */
  ghost predicate OldestOf(rows: Rows, keys: set<Key>, k: Key)
    requires k in rows && keys <= rows.Keys
  {
    forall x | x in keys && x != k :: Older(rows, k, x)
  }

  lemma OneMoreCandidate(rows: Rows, order: seq<Key>, left: set<Key>, x: Key, k: Key)
    requires (forall k :: k in rows <==> k in order) && InOrder(rows, order)
    requires left <= rows.Keys && x in left && k in rows && k !in left && OldestOf(rows, rows.Keys - left, k)
    ensures OldestOf(rows, rows.Keys - (left - {x}), if Older(rows, x, k) then x else k)
  {
    assert x in rows && x in order && k in order;
    forall z | z in rows && z !in left && z != k
      ensures Older(rows, k, z)
    {
      assert z in rows.Keys - left;
    }
    var i :| 0 <= i < |order| && order[i] == x;
    var j :| 0 <= j < |order| && order[j] == k;
    assert Older(rows, x, k) || Older(rows, k, x);
  }

  lemma OldestIsFirst(rows: Rows, order: seq<Key>, k: Key)
    requires (forall k :: k in rows <==> k in order) && InOrder(rows, order) && order != []
    requires k in rows && OldestOf(rows, rows.Keys - {}, k)
    ensures k == order[0]
  {
    assert k in order && order[0] in order && order[0] in rows.Keys - {};
    var j :| 0 <= j < |order| && order[j] == k;
  }

  /** The state within a write: the table holds at least what the limit asks for. */
  ghost predicate Cached(rows: Rows, history: seq<Write>, order: seq<Key>, limit: nat) {
    Holds(rows, history, order) && TailOf(order, Recent(history), limit)
  }

  /** Only rows of table `t` are as recent as `tick`, and none is more recent. */
  ghost predicate NoneAfter(rows: Rows, tick: nat, t: nat) {
    forall k | k in rows :: rows[k].lastUsed < tick || (rows[k].lastUsed == tick && Table(k) == t)
  }

  lemma InsertKeepsCached(rows: Rows, history: seq<Write>, order: seq<Key>, limit: nat, w: Write, row: Row)
    requires Cached(rows, history, order, limit) && NoneAfter(rows, row.lastUsed, Table(w.key))
    requires AsWritten(row, Some(w)) && forall k | k in rows && Table(k) == Table(w.key) :: rows[k].rowid < row.rowid
    ensures Cached(rows[w.key := row], history + [w], Without(order, w.key) + [w.key], limit)
    ensures NoneAfter(rows[w.key := row], row.lastUsed, Table(w.key))
  {
    InsertKeepsTail(history, order, limit, w);
    InsertIsNewest(rows, w.key, row);
    InsertKeepsOrder(rows, history, order, w, row);
  }

  lemma InsertIsNewest(rows: Rows, k: Key, row: Row)
    requires NoneAfter(rows, row.lastUsed, Table(k))
    requires forall x | x in rows && Table(x) == Table(k) :: rows[x].rowid < row.rowid
    ensures NoneAfter(rows[k := row], row.lastUsed, Table(k))
    ensures forall x | x in rows && x != k :: Older(rows[k := row], x, k)
  {
  }

  lemma InsertKeepsTail(history: seq<Write>, order: seq<Key>, limit: nat, w: Write)
    requires TailOf(order, Recent(history), limit)
    ensures TailOf(Without(order, w.key) + [w.key], Recent(history + [w]), limit)
  {
    RecentFacts(history);
    TouchKeepsTail(order, Recent(history), limit, w.key);
    assert (history + [w])[..|history|] == history;
  }

  /** Deleting the oldest row until `limit` are left leaves the last `limit` keys. */
  lemma EvictedIsLastN(rows: Rows, history: seq<Write>, order: seq<Key>, limit: nat, start: seq<Key>)
    requires Holds(rows, history, order) && LastN(order, limit) == LastN(start, limit) && |order| <= limit
    requires TailOf(start, Recent(history), limit)
    ensures order == LastN(Recent(history), limit)
  {
    CutTail(start, Recent(history), limit);
  }

  predicate AsWritten(row: Row, w: Option<Write>) {
    w.Some? && row.model == w.value.model && row.version == w.value.version && row.value == w.value.value
  }

  lemma InsertKeepsOrder(rows: Rows, history: seq<Write>, order: seq<Key>, w: Write, row: Row)
    requires Holds(rows, history, order)
    requires AsWritten(row, Some(w)) && forall k | k in rows && k != w.key :: Older(rows[w.key := row], k, w.key)
    ensures Holds(rows[w.key := row], history + [w], Without(order, w.key) + [w.key])
  {
    TouchedOrder(order, w.key);
    OrderAfterInsert(rows, rows[w.key := row], order, Without(order, w.key) + [w.key], w.key);
    assert (history + [w])[..|history|] == history;
  }

  lemma DeleteKeepsOrder(rows: Rows, history: seq<Write>, order: seq<Key>)
    requires Holds(rows, history, order) && order != []
    ensures Holds(rows - {order[0]}, history, order[1..])
  {
    assert order == [order[0]] + order[1..];
    var rest := order[1..];
    forall i, j | 0 <= i < j < |rest|
      ensures rest[i] in rows - {order[0]} && rest[j] in rows - {order[0]} && Older(rows - {order[0]}, rest[i], rest[j])
    {
      assert Older(rows, order[i + 1], order[j + 1]);
    }
  }

  lemma RowsMatchOrder(rows: Rows, history: seq<Write>, order: seq<Key>)
    requires Holds(rows, history, order)
    ensures |rows| == |order|
  {
    DistinctSize(order);
    assert rows.Keys == Elements(order);
    assert |rows.Keys| == |rows|;
  }

  lemma TouchedOrder(order: seq<Key>, k: Key)
    requires NoDuplicates(order)
    ensures NoDuplicates(Without(order, k) + [k])
    ensures forall x :: x in Without(order, k) + [k] <==> x in order || x == k
  {
    WithoutKeepsDistinct(order, k);
    forall x
      ensures x in Without(order, k) <==> x in order && x != k
    {
      WithoutMembers(order, k, x);
    }
  }

  ghost predicate InOrder(rows: Rows, order: seq<Key>) {
    forall i, j | 0 <= i < j < |order| :: order[i] in rows && order[j] in rows && Older(rows, order[i], order[j])
  }

  lemma {:induction false} WithoutKeepsOrder(rows: Rows, order: seq<Key>, k: Key)
    requires InOrder(rows, order) && forall x | x in order :: x in rows
    ensures InOrder(rows, Without(order, k))
  {
    if order != [] {
      var init, last := order[..|order| - 1], order[|order| - 1];
      WithoutKeepsOrder(rows, init, k);
      var kept := Without(init, k);
      forall i | 0 <= i < |kept|
        ensures kept[i] in init
      {
        WithoutMembers(init, k, kept[i]);
      }
    }
  }

  lemma OrderAfterInsert(rows: Rows, rows': Rows, order: seq<Key>, order': seq<Key>, k: Key)
    requires InOrder(rows, order) && forall x :: x in order <==> x in rows
    requires order' == Without(order, k) + [k] && k in rows' && rows' == rows[k := rows'[k]]
    requires forall x | x in rows && x != k :: Older(rows', x, k)
    ensures InOrder(rows', order')
  {
    WithoutKeepsOrder(rows, order, k);
    var kept := Without(order, k);
    forall i | 0 <= i < |kept|
      ensures kept[i] in rows && kept[i] != k
    {
      WithoutMembers(order, k, kept[i]);
    }
  }

  lemma {:induction false} DistinctSize<T>(s: seq<T>)
    requires NoDuplicates(s)
    ensures |Elements(s)| == |s|
  {
    if s == [] {
      assert Elements(s) == {};
    } else {
      var init, last := s[..|s| - 1], s[|s| - 1];
      DistinctSize(init);
      assert s == init + [last] && last !in init;
      assert Elements(s) == Elements(init) + {last};
    }
  }
}
