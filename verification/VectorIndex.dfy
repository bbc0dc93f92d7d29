/** The vector index allocator (hnsw.rs). */
module VectorIndexes {
  // Vids come from a counter that heals itself past keys the index already holds; a batch add is
  // all or nothing (store.rs).
  import opened Common

  /** The live entries of the index and the next vid to try. */
  datatype Index<V> = Index(live: map<nat, V>, nextVid: nat)

  datatype AddResult = Added(vid: nat) | GaveUp | Failed

  const MAX_COLLISION_RETRIES: nat := 1024

  /** The retry loop from its `attempt`-th try on. `faults` holds the tries at which the
      underlying index reports an error other than a duplicate key. */
  function AddFrom<V>(s: Index<V>, v: V, faults: set<nat>, attempt: nat): (Index<V>, AddResult)
    requires attempt <= MAX_COLLISION_RETRIES
    decreases MAX_COLLISION_RETRIES - attempt
  {
    if attempt == MAX_COLLISION_RETRIES then (s, GaveUp)
    else if attempt in faults then (s, Failed)
    else if s.nextVid in s.live then AddFrom(s.(nextVid := s.nextVid + 1), v, faults, attempt + 1)
    else (Index(s.live[s.nextVid := v], s.nextVid + 1), Added(s.nextVid))
  }

  /** `vid` is the least vid from `s.nextVid` on that the index does not hold. */
  ghost predicate FirstFree<V>(s: Index<V>, vid: nat) {
    s.nextVid <= vid && vid !in s.live && forall w | s.nextVid <= w < vid :: w in s.live
  }

  /** The loop returns exactly the first free vid, when it is within reach and no try up to
      it fails; in every other case it leaves the entries alone. The counter never falls. */
  lemma {:induction false} AddFindsFirstFree<V>(s: Index<V>, v: V, faults: set<nat>, attempt: nat, vid: nat)
    requires attempt <= MAX_COLLISION_RETRIES
    ensures AddFrom(s, v, faults, attempt).1 == Added(vid) <==>
            && FirstFree(s, vid) && attempt + (vid - s.nextVid) < MAX_COLLISION_RETRIES
            && forall t | attempt <= t <= attempt + (vid - s.nextVid) :: t !in faults
    ensures AddFrom(s, v, faults, attempt).1 == Added(vid) ==>
              AddFrom(s, v, faults, attempt).0 == Index(s.live[vid := v], vid + 1)
    ensures !AddFrom(s, v, faults, attempt).1.Added? ==> AddFrom(s, v, faults, attempt).0.live == s.live
    ensures s.nextVid <= AddFrom(s, v, faults, attempt).0.nextVid
    decreases MAX_COLLISION_RETRIES - attempt
  {
    if attempt < MAX_COLLISION_RETRIES && attempt !in faults && s.nextVid in s.live {
      var next := s.(nextVid := s.nextVid + 1);
      AddFindsFirstFree(next, v, faults, attempt + 1, vid);
      assert FirstFree(s, vid) <==> FirstFree(next, vid);
    } else if attempt < MAX_COLLISION_RETRIES && attempt in faults && FirstFree(s, vid) {
      assert attempt <= attempt <= attempt + (vid - s.nextVid);
    } else if attempt < MAX_COLLISION_RETRIES && FirstFree(s, vid) {
      assert vid != s.nextVid ==> s.nextVid in s.live;
    }
  }

  function FaultsAt(faults: seq<set<nat>>, i: nat): set<nat> {
    if i < |faults| then faults[i] else {}
  }

  /** Add `vs[|vids|..]` after `vids` already went in; when an add fails, the vids that went
      in are removed again. */
  function AddRest<V>(s: Index<V>, vs: seq<V>, faults: seq<set<nat>>, vids: seq<nat>): (Index<V>, Option<seq<nat>>)
    requires |vids| <= |vs|
    decreases |vs| - |vids|
  {
    if |vids| == |vs| then (s, Some(vids))
    else
      var (s', r) := AddFrom(s, vs[|vids|], FaultsAt(faults, |vids|), 0);
      if r.Added? then AddRest(s', vs, faults, vids + [r.vid])
      else (s'.(live := s'.live - Elements(vids)), None)
  }

  function AddAll<V>(s: Index<V>, vs: seq<V>, faults: seq<set<nat>>): (Index<V>, Option<seq<nat>>) {
    AddRest(s, vs, faults, [])
  }

  /** `s` is `start` with `vs` bound under `vids`, all of them new and increasing. */
  ghost predicate Grown<V>(start: Index<V>, s: Index<V>, vs: seq<V>, vids: seq<nat>) {
    && |vids| <= |vs|
    && start.nextVid <= s.nextVid
    && (forall i | 0 <= i < |vids| :: start.nextVid <= vids[i] < s.nextVid && vids[i] !in start.live)
    && (forall i, j | 0 <= i < j < |vids| :: vids[i] < vids[j])
    && (forall w :: w in s.live <==> w in start.live || w in vids)
    && (forall w | w in start.live :: s.live[w] == start.live[w])
    && (forall i | 0 <= i < |vids| :: vids[i] in s.live && s.live[vids[i]] == vs[i])
  }

  lemma {:induction false} AddRestIsAllOrNothing<V>(start: Index<V>, s: Index<V>, vs: seq<V>, faults: seq<set<nat>>, vids: seq<nat>)
    requires Grown(start, s, vs, vids)
    ensures var (s', r) := AddRest(s, vs, faults, vids);
            && start.nextVid <= s'.nextVid
            && (r.Some? ==> |r.value| == |vs| && Grown(start, s', vs, r.value))
            && (r.None? ==> s'.live == start.live)
    decreases |vs| - |vids|
  {
    if |vids| < |vs| {
      var f := FaultsAt(faults, |vids|);
      var (s', r) := AddFrom(s, vs[|vids|], f, 0);
      AddFindsFirstFree(s, vs[|vids|], f, 0, if r.Added? then r.vid else 0);
      if r.Added? {
        assert forall w :: w in vids + [r.vid] <==> w in vids || w == r.vid;
        assert Grown(start, s', vs, vids + [r.vid]);
        AddRestIsAllOrNothing(start, s', vs, faults, vids + [r.vid]);
      } else {
        assert s'.live - Elements(vids) == start.live;
      }
    }
  }

  /** Every embedding goes in under its own new vid, or the entries stay as they were. */
  lemma AddAllIsAllOrNothing<V>(s: Index<V>, vs: seq<V>, faults: seq<set<nat>>)
    ensures var (s', r) := AddAll(s, vs, faults);
            && s.nextVid <= s'.nextVid
            && (r.Some? ==> |r.value| == |vs| && Grown(s, s', vs, r.value))
            && (r.None? ==> s'.live == s.live)
  {
    AddRestIsAllOrNothing(s, s, vs, faults, []);
  }

  class VectorIndex<V> {
    var inner: map<nat, V>
    var nextVid: nat
    const readOnly: bool

    ghost function State(): Index<V>
      reads this
    {
      Index(inner, nextVid)
    }

    /** `new`, `load` and `view`: the counter starts at the number of entries. */
    constructor (entries: map<nat, V>, readOnly: bool)
      ensures State() == Index(entries, |entries|) && this.readOnly == readOnly
    {
      this.inner, this.nextVid, this.readOnly := entries, |entries|, readOnly;
    }

    method Add(v: V, faults: set<nat>) returns (r: AddResult)
      modifies this
      ensures readOnly ==> State() == old(State()) && r == Failed
      ensures !readOnly ==> (State(), r) == AddFrom(old(State()), v, faults, 0)
    {
      if readOnly {
        return Failed;
      }
      for attempt := 0 to MAX_COLLISION_RETRIES
        invariant AddFrom(State(), v, faults, attempt) == AddFrom(old(State()), v, faults, 0)
      {
        if attempt in faults {
          return Failed;
        }
        if nextVid !in inner {
          inner := inner[nextVid := v];
          nextVid := nextVid + 1;
          return Added(nextVid - 1);
        }
        nextVid := nextVid + 1;
      }
      return GaveUp;
    }

    method EnsureNextVidAtLeast(floor: nat)
      modifies this`nextVid
      ensures floor <= nextVid && old(nextVid) <= nextVid && (nextVid == floor || nextVid == old(nextVid))
    {
      if floor > nextVid {
        nextVid := floor;
      }
    }

    method Remove(vid: nat) returns (ok: bool)
      modifies this`inner
      ensures ok == !readOnly
      ensures inner == if readOnly then old(inner) else old(inner) - {vid}
    {
      if readOnly {
        return false;
      }
      inner := inner - {vid};
      return true;
    }

    method AddAllOrRollback(vs: seq<V>, faults: seq<set<nat>>) returns (r: Option<seq<nat>>)
      requires !readOnly
      modifies this
      ensures (State(), r) == AddAll(old(State()), vs, faults)
    {
      var vids: seq<nat> := [];
      for i := 0 to |vs|
        invariant |vids| == i
        invariant AddRest(State(), vs, faults, vids) == AddAll(old(State()), vs, faults)
      {
        var added := Add(vs[i], FaultsAt(faults, i));
        if !added.Added? {
          ghost var before := inner;
          for j := 0 to |vids|
            invariant nextVid == AddAll(old(State()), vs, faults).0.nextVid
            invariant inner == before - Elements(vids[..j])
          {
            var _ := Remove(vids[j]);
            assert Elements(vids[..j + 1]) == Elements(vids[..j]) + {vids[j]};
          }
          assert vids[..|vids|] == vids;
          return None;
        }
        vids := vids + [added.vid];
      }
      return Some(vids);
    }
  }
}
