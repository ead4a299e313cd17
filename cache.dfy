/**
 * The dedup cache of storage/cache.go: a map from user id to bool used as an
 * insert-if-absent set. An id counts as seen only when it maps to true.
 */
module Storage {
  import opened Decimal

  /** Every id in the cache maps to true, as CheckIDExist alone ever stores. */
  predicate AllTrue(m: map<Int64, bool>) {
    forall id :: id in m ==> m[id]
  }

  /** Whether the lookup `internalCache[id]` reads true (a missing key reads false). */
  predicate Seen(m: map<Int64, bool>, id: Int64) {
    id in m && m[id]
  }

  /** One CheckIDExist call on cache m: the new cache and the answer. */
  function CheckStep(m: map<Int64, bool>, id: Int64): (r: (map<Int64, bool>, bool))
    ensures r.1 <==> Seen(m, id)
    ensures Seen(r.0, id)
    ensures forall other :: other != id ==> (other in r.0 <==> other in m)
    ensures forall other :: other != id && other in m ==> r.0[other] == m[other]
  {
    if Seen(m, id) then (m, true) else (m[id := true], false)
  }

  /** The size of the cache grows by one exactly when the answer is false. */
  lemma CheckStepSize(m: map<Int64, bool>, id: Int64)
    requires AllTrue(m)
    ensures AllTrue(CheckStep(m, id).0)
    ensures |CheckStep(m, id).0| == |m| + (if CheckStep(m, id).1 then 0 else 1)
  {
    if !Seen(m, id) {
      assert id !in m;
      assert CheckStep(m, id).0.Keys == m.Keys + {id};
    }
  }

  /** The answers of CheckIDExist called on each of ids in turn, starting from m. */
  function Replay(m: map<Int64, bool>, ids: seq<Int64>): (r: (map<Int64, bool>, seq<bool>))
    ensures |r.1| == |ids|
  {
    if ids == [] then (m, [])
    else
      var prev := Replay(m, ids[..|ids| - 1]);
      var step := CheckStep(prev.0, ids[|ids| - 1]);
      (step.0, prev.1 + [step.1])
  }

  /** Starting from an empty cache, the cache holds exactly the ids checked, each mapped to true. */
  lemma {:induction false} ReplayKeys(ids: seq<Int64>)
    ensures Replay(map[], ids).0.Keys == set i | i in ids
    ensures AllTrue(Replay(map[], ids).0)
  {
    if ids != [] {
      var init := ids[..|ids| - 1];
      ReplayKeys(init);
      assert ids == init + [ids[|ids| - 1]];
      assert (set i | i in ids) == (set i | i in init) + {ids[|ids| - 1]};
    }
  }

  /** Replaying a prefix gives the prefix of the answers. */
  lemma {:induction false} ReplayPrefix(m: map<Int64, bool>, ids: seq<Int64>, j: nat)
    requires j <= |ids|
    ensures Replay(m, ids[..j]).1 == Replay(m, ids).1[..j]
  {
    if j < |ids| {
      ReplayPrefix(m, ids[..|ids| - 1], j);
      assert ids[..|ids| - 1][..j] == ids[..j];
    } else {
      assert ids[..j] == ids;
    }
  }

  /**
   * Starting from an empty cache, a call answers true exactly when the same
   * id was checked by an earlier call.
   */
  lemma ReplayFromEmpty(ids: seq<Int64>)
    ensures forall k :: 0 <= k < |ids| ==> (Replay(map[], ids).1[k] <==> ids[k] in ids[..k])
  {
    forall k | 0 <= k < |ids|
      ensures Replay(map[], ids).1[k] <==> ids[k] in ids[..k]
    {
      ReplayAnswer(ids, k);
    }
  }

  /** The k-th answer is whether ids[k] is among the ids before it. */
  lemma ReplayAnswer(ids: seq<Int64>, k: nat)
    requires k < |ids|
    ensures Replay(map[], ids).1[k] <==> ids[k] in ids[..k]
  {
    var p := ids[..k + 1];
    ReplayPrefix(map[], ids, k + 1);
    assert Replay(map[], ids).1[k] == Replay(map[], p).1[k];
    assert p[..k] == ids[..k] && p[k] == ids[k];
    var before := Replay(map[], ids[..k]).0;
    assert Replay(map[], p).1[k] == CheckStep(before, ids[k]).1;
    ReplayKeys(ids[..k]);
    assert Seen(before, ids[k]) <==> ids[k] in before.Keys;
  }

  /** After a run of calls, an id reads as seen exactly when it did before or was checked. */
  lemma {:induction false} ReplaySeen(m: map<Int64, bool>, ids: seq<Int64>, x: Int64)
    ensures Seen(Replay(m, ids).0, x) <==> Seen(m, x) || x in ids
  {
    if ids != [] {
      var init := ids[..|ids| - 1];
      ReplaySeen(m, init, x);
      assert ids == init + [ids[|ids| - 1]];
    }
  }

  /** Checking the same id twice in a row answers true the second time. */
  lemma CheckTwice(m: map<Int64, bool>, id: Int64)
    ensures CheckStep(CheckStep(m, id).0, id).1
    ensures CheckStep(CheckStep(m, id).0, id).0 == CheckStep(m, id).0
  {
  }

  /** The process-wide cache guarded by internalMutex. */
  class DedupCache {
    var internalCache: map<Int64, bool>

    predicate Valid()
      reads this
    {
      AllTrue(internalCache)
    }

    /** initializeCache: an empty cache. */
    constructor()
      ensures internalCache == map[]
      ensures Valid() && Size() == 0
    {
      internalCache := map[];
    }

    /** CacheSize: the number of keys held. */
    function Size(): nat
      reads this
    {
      |internalCache|
    }

    /**
     * CheckIDExist: true when id was already recorded as seen; otherwise
     * records it and answers false.
     */
    method CheckIDExist(id: Int64) returns (found: bool)
      requires Valid()
      modifies this
      ensures (internalCache, found) == CheckStep(old(internalCache), id)
      ensures found <==> Seen(old(internalCache), id)
      ensures Valid()
      ensures Size() == old(Size()) + (if found then 0 else 1)
    {
      CheckStepSize(internalCache, id);
      var value := id in internalCache && internalCache[id];
      if value {
        return true;
      }
      internalCache := internalCache[id := true];
      return false;
    }
  }
}
