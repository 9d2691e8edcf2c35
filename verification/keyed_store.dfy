/**
 * The identifier allocator and id-keyed store behind key facts, key snippets
 * and tasks: values stored under consecutive ids taken from a counter that is
 * never lowered, bulk deletion by id, and exchange of the values at two ids.
 * These are the specifications the memory tools are proved against.
 */
module KeyedStore {

  /** Every id in the store was handed out by the allocator, which now stands at `next`. */
  ghost predicate IdsBelow<V>(m: map<int, V>, next: nat)
  {
    forall k :: k in m ==> 0 <= k < next
  }

  /** The store after storing `xs` in order under the ids `next`, `next + 1`, ... */
  function Stored<V>(m: map<int, V>, next: int, xs: seq<V>): map<int, V>
  {
    if xs == [] then m
    else Stored(m, next, xs[..|xs| - 1])[next + |xs| - 1 := xs[|xs| - 1]]
  }

  /**
   * Storing `xs` adds exactly the ids `next` .. `next + |xs| - 1`, the i-th
   * value under id `next + i`, and leaves every other id as it was.
   */
  lemma {:induction false} StoredAt<V>(m: map<int, V>, next: int, xs: seq<V>)
    ensures forall k :: k in Stored(m, next, xs) <==> k in m || next <= k < next + |xs|
    ensures forall k :: next <= k < next + |xs| ==> Stored(m, next, xs)[k] == xs[k - next]
    ensures forall k :: k in m && !(next <= k < next + |xs|) ==> Stored(m, next, xs)[k] == m[k]
  {
    if xs != [] {
      var init := xs[..|xs| - 1];
      assert Stored(m, next, xs) == Stored(m, next, init)[next + |xs| - 1 := xs[|xs| - 1]];
      StoredAt(m, next, init);
      forall k | next <= k < next + |xs| - 1
        ensures Stored(m, next, xs)[k] == xs[k - next]
      {
        assert init[k - next] == xs[k - next];
      }
    }
  }

  /** Storing into a store whose ids lie below the counter overwrites nothing. */
  lemma {:induction false} StoredIsFresh<V>(m: map<int, V>, next: nat, xs: seq<V>)
    requires IdsBelow(m, next)
    ensures |Stored(m, next, xs)| == |m| + |xs|
    ensures IdsBelow(Stored(m, next, xs), next + |xs|)
    ensures forall k :: k in m ==> k in Stored(m, next, xs) && Stored(m, next, xs)[k] == m[k]
    ensures forall i :: 0 <= i < |xs| ==> next + i in Stored(m, next, xs) && Stored(m, next, xs)[next + i] == xs[i]
  {
    if xs != [] {
      var init := xs[..|xs| - 1];
      StoredIsFresh(m, next, init);
      assert next + |init| !in Stored(m, next, init);
      StoredAt(m, next, xs);
      forall i | 0 <= i < |xs|
        ensures next + i in Stored(m, next, xs) && Stored(m, next, xs)[next + i] == xs[i]
      {
        assert next <= next + i < next + |xs|;
      }
    }
  }

  /** The store after deleting each listed id that is present; absent ids are skipped. */
  function Removed<V>(m: map<int, V>, ids: seq<int>): map<int, V>
  {
    if ids == [] then m else Removed(m, ids[..|ids| - 1]) - {ids[|ids| - 1]}
  }

  /**
   * Deleting a list of ids keeps exactly the ids that are not listed, each with
   * its old value.
   */
  lemma {:induction false} RemovedAt<V>(m: map<int, V>, ids: seq<int>)
    ensures forall k :: k in Removed(m, ids) <==> k in m && k !in ids
    ensures forall k :: k in Removed(m, ids) ==> Removed(m, ids)[k] == m[k]
  {
    if ids != [] {
      var init := ids[..|ids| - 1];
      RemovedAt(m, init);
      assert forall k :: k in ids <==> k in init || k == ids[|ids| - 1];
    }
  }

  /** Deleting the same ids a second time changes nothing. */
  lemma RemovedIdempotent<V>(m: map<int, V>, ids: seq<int>)
    ensures Removed(Removed(m, ids), ids) == Removed(m, ids)
  {
    var once := Removed(m, ids);
    RemovedAt(m, ids);
    RemovedAt(once, ids);
    var twice := Removed(once, ids);
    forall k
      ensures k in twice <==> k in once
    {
      if k in once {
        assert k !in ids;
      }
    }
    assert twice.Keys == once.Keys;
    assert forall k :: k in twice ==> twice[k] == once[k];
    assert twice == once;
  }

  /** Deleting from a store never adds ids, so the ids stay below the counter. */
  lemma {:induction false} RemovedKeepsIds<V>(m: map<int, V>, next: nat, ids: seq<int>)
    requires IdsBelow(m, next)
    ensures IdsBelow(Removed(m, ids), next)
    ensures |Removed(m, ids)| <= |m|
  {
    if ids != [] {
      RemovedKeepsIds(m, next, ids[..|ids| - 1]);
    }
  }

  /** The store with the values at ids `a` and `b` exchanged; the ids themselves stay. */
  function Swapped<V>(m: map<int, V>, a: int, b: int): (r: map<int, V>)
    requires a in m && b in m
    ensures r.Keys == m.Keys
    ensures r[a] == m[b] && r[b] == m[a]
    ensures forall k :: k in m && k != a && k != b ==> r[k] == m[k]
  {
    m[a := m[b]][b := m[a]]
  }

  /** Swapping twice restores the store. */
  lemma SwappedInvolution<V>(m: map<int, V>, a: int, b: int)
    requires a in m && b in m
    ensures Swapped(Swapped(m, a, b), a, b) == m
  {
  }

  /** The ids of `m` below `bound`, in ascending order: for ids handed out by the counter, the order they were stored in. */
  function AscendingIds<V>(m: map<int, V>, bound: nat): (ids: seq<int>)
    ensures forall i :: 0 <= i < |ids| ==> ids[i] in m && 0 <= ids[i] < bound
  {
    if bound == 0 then []
    else AscendingIds(m, bound - 1) + (if bound - 1 in m then [bound - 1] else [])
  }

  /** The listing is complete and strictly ascending, so it holds each id once. */
  lemma {:induction false} AscendingIdsSorted<V>(m: map<int, V>, bound: nat)
    ensures forall k :: k in m && 0 <= k < bound ==> k in AscendingIds(m, bound)
    ensures forall i, j :: 0 <= i < j < |AscendingIds(m, bound)| ==> AscendingIds(m, bound)[i] < AscendingIds(m, bound)[j]
  {
    if bound > 0 {
      AscendingIdsSorted(m, bound - 1);
    }
  }

  /** An empty store has no ids to list. */
  lemma {:induction false} AscendingIdsEmpty<V>(m: map<int, V>, bound: nat)
    requires m == map[]
    ensures AscendingIds(m, bound) == []
  {
    if bound > 0 {
      AscendingIdsEmpty(m, bound - 1);
    }
  }

  /** When every id below the bound is present, the ascending ids are 0, 1, ..., bound - 1. */
  lemma {:induction false} AscendingIdsFull<V>(m: map<int, V>, bound: nat)
    requires forall k :: 0 <= k < bound ==> k in m
    ensures |AscendingIds(m, bound)| == bound
    ensures forall i :: 0 <= i < bound ==> AscendingIds(m, bound)[i] == i
  {
    if bound > 0 {
      AscendingIdsFull(m, bound - 1);
      var prev, ids := AscendingIds(m, bound - 1), AscendingIds(m, bound);
      assert bound - 1 in m;
      assert ids == prev + [bound - 1];
      forall i | 0 <= i < bound
        ensures ids[i] == i
      {
        if i < bound - 1 {
          assert ids[i] == prev[i];
        }
      }
    }
  }

}
