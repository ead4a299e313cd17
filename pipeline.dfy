/**
 * The per-step decisions of pipeline/manager.go. Each goroutine loop of the
 * pipeline is modelled by one step (or a run of steps) over the values its
 * channels deliver; the channels themselves are sequences.
 */
module Pipeline {
  import opened Wrappers
  import opened Decimal
  import opened Anaconda
  import opened Storage
  import opened Request
  import Seqs

  // ---------------------------------------------------------------- batch assembly

  /**
   * The ids of ids that CheckOldUser reports as new, in arrival order, when
   * they are checked one after another against cache m.
   */
  function Unseen(m: map<Int64, bool>, ids: seq<Int64>): (u: seq<Int64>)
    ensures |u| <= |ids|
  {
    if ids == [] then []
    else
      var init := ids[..|ids| - 1];
      Unseen(m, init) + (if CheckStep(Replay(m, init).0, ids[|ids| - 1]).1 then [] else [ids[|ids| - 1]])
  }

  /**
   * What a batch holds: ids that arrived and were not seen before, and no
   * id twice.
   */
  lemma {:induction false} UnseenFresh(m: map<Int64, bool>, ids: seq<Int64>)
    ensures forall x :: x in Unseen(m, ids) ==> x in ids && !Seen(m, x)
    ensures forall x :: x in ids && !Seen(m, x) ==> x in Unseen(m, ids)
    ensures Seqs.Distinct(Unseen(m, ids))
  {
    if ids != [] {
      var init := ids[..|ids| - 1];
      var last := ids[|ids| - 1];
      UnseenFresh(m, init);
      ReplaySeen(m, init, last);
      assert ids == init + [last];
      var u := Unseen(m, init);
      if !CheckStep(Replay(m, init).0, last).1 {
        assert last !in u;
        assert Unseen(m, ids) == u + [last];
      }
    }
  }

  /** Checking one more id extends the cache and the unseen ids by one step. */
  lemma UnseenStep(m: map<Int64, bool>, ids: seq<Int64>, k: nat)
    requires k < |ids|
    ensures Replay(m, ids[..k + 1]).0 == CheckStep(Replay(m, ids[..k]).0, ids[k]).0
    ensures Unseen(m, ids[..k + 1])
         == Unseen(m, ids[..k]) + (if CheckStep(Replay(m, ids[..k]).0, ids[k]).1 then [] else [ids[k]])
  {
    assert ids[..k + 1][..k] == ids[..k];
    assert ids[..k + 1][k] == ids[k];
  }

  /** Before the first n ids, fewer than size ids had passed CheckOldUser. */
  ghost predicate Filling(m: map<Int64, bool>, ids: seq<Int64>, n: nat, size: nat)
    requires n <= |ids|
  {
    forall j :: 0 <= j < n ==> |Unseen(m, ids[..j])| < size
  }

  /** Receiving one more id while the batch still has room keeps it filling. */
  lemma FillingStep(m: map<Int64, bool>, ids: seq<Int64>, n: nat, size: nat)
    requires n < |ids| && Filling(m, ids, n, size) && |Unseen(m, ids[..n])| < size
    ensures Filling(m, ids, n + 1, size)
  {
  }

  /**
   * The batch loop of getUsersDetailsBatches: receive ids until
   * patchSize of them have passed CheckOldUser; an id already seen does not
   * take a slot (the `i--; continue` step). CheckOldUser is taken to be
   * CheckIDExist. A complete batch stops right after the id that filled the
   * last slot: before it, fewer than patchSize ids had passed. When the
   * input runs out first the Go loop blocks; the model stops there and
   * reports the batch incomplete.
   */
  method AssembleBatch(cache: DedupCache, input: seq<Int64>, patchSize: nat)
    returns (inIdes: array<Int64>, consumed: nat, complete: bool)
    requires cache.Valid()
    modifies cache
    ensures fresh(inIdes) && inIdes.Length == patchSize
    ensures consumed <= |input| && cache.Valid()
    ensures cache.internalCache == Replay(old(cache.internalCache), input[..consumed]).0
    ensures complete ==> inIdes[..] == Unseen(old(cache.internalCache), input[..consumed])
    ensures complete ==> forall j :: 0 <= j < consumed ==> |Unseen(old(cache.internalCache), input[..j])| < patchSize
    ensures !complete ==> consumed == |input| && |Unseen(old(cache.internalCache), input)| < patchSize
    ensures !complete ==> inIdes[..|Unseen(old(cache.internalCache), input)|] == Unseen(old(cache.internalCache), input)
  {
    ghost var m0 := cache.internalCache;
    inIdes := new Int64[patchSize](_ => 0);
    consumed := 0;
    var i: int := 0;
    while i < patchSize
      invariant 0 <= i <= patchSize && consumed <= |input|
      invariant cache.Valid()
      invariant cache.internalCache == Replay(m0, input[..consumed]).0
      invariant |Unseen(m0, input[..consumed])| == i
      invariant inIdes[..i] == Unseen(m0, input[..consumed])
      invariant Filling(m0, input, consumed, patchSize)
      decreases |input| - consumed
    {
      if consumed == |input| {
        assert input[..consumed] == input;
        return inIdes, consumed, false;
      }
      var id := input[consumed];
      UnseenStep(m0, input, consumed);
      FillingStep(m0, input, consumed, patchSize);
      consumed := consumed + 1;
      var seen := cache.CheckIDExist(id);
      if seen {
        i := i - 1;
      } else {
        inIdes[i] := id;
      }
      i := i + 1;
    }
    complete := true;
  }

  // ---------------------------------------------------------------- validation stage

  /** The capacity of userInvstChn. */
  const InvestCapacity: nat := 1000

  /** The recursion predicate of checkValidateUser. */
  function ShouldExpand(recursive: bool, successOnly: bool, valid: bool): (r: bool)
    ensures r <==> recursive && (!successOnly || valid)
  {
    (recursive && successOnly && valid) || (recursive && !successOnly)
  }

  /**
   * The ids left in userInvstChn after checkValidateUser has seen users in
   * order, starting from the buffer q: each user the recursion predicate
   * selects is queued while the buffer has room, and dropped otherwise.
   */
  function Pushed(q: seq<Int64>, users: seq<User>, valid: User -> bool, recursive: bool, successOnly: bool): seq<Int64>
    decreases |users|
  {
    if users == [] then q
    else
      var p := Pushed(q, users[..|users| - 1], valid, recursive, successOnly);
      var u := users[|users| - 1];
      if ShouldExpand(recursive, successOnly, valid(u)) && |p| < InvestCapacity then p + [u.id] else p
  }

  /** One more user seen queues its id exactly when it is selected and there is room. */
  lemma PushedStep(q: seq<Int64>, users: seq<User>, i: nat, valid: User -> bool, recursive: bool, successOnly: bool)
    requires i < |users|
    ensures var p := Pushed(q, users[..i], valid, recursive, successOnly);
      Pushed(q, users[..i + 1], valid, recursive, successOnly)
      == if ShouldExpand(recursive, successOnly, valid(users[i])) && |p| < InvestCapacity then p + [users[i].id] else p
  {
    assert users[..i + 1][..i] == users[..i];
  }

  /**
   * The forwarded users, the queue and the investigating set after the
   * users seen so far, from validOut0, invest0 and investigating0.
   */
  predicate Tracks(validOut: seq<User>, invest: seq<Int64>, investigating: set<Int64>,
                   validOut0: seq<User>, invest0: seq<Int64>, investigating0: set<Int64>,
                   seen: seq<User>, valid: User -> bool, recursive: bool, successOnly: bool)
  {
    && validOut == validOut0 + Seqs.Filter(seen, valid)
    && |invest0| <= |invest|
    && invest == Pushed(invest0, seen, valid, recursive, successOnly)
    && investigating == investigating0 + IdsFrom(invest, |invest0|)
  }

  /** One user handled as CheckValidateUser does keeps Tracks. */
  lemma TracksStep(out: seq<User>, before: seq<Int64>, beforeSet: set<Int64>,
                   out': seq<User>, after: seq<Int64>, afterSet: set<Int64>,
                   validOut0: seq<User>, invest0: seq<Int64>, investigating0: set<Int64>, users: seq<User>, i: nat,
                   valid: User -> bool, recursive: bool, successOnly: bool)
    requires i < |users|
    requires Tracks(out, before, beforeSet, validOut0, invest0, investigating0, users[..i], valid, recursive, successOnly)
    requires out' == out + (if valid(users[i]) then [users[i]] else [])
    requires var push := ShouldExpand(recursive, successOnly, valid(users[i])) && |before| < InvestCapacity;
      after == before + (if push then [users[i].id] else []) && afterSet == beforeSet + (if push then {users[i].id} else {})
    ensures Tracks(out', after, afterSet, validOut0, invest0, investigating0, users[..i + 1], valid, recursive, successOnly)
  {
    Seqs.FilterAppend(users[..i], users[i], valid);
    assert users[..i + 1] == users[..i] + [users[i]];
    PushedStep(invest0, users, i, valid, recursive, successOnly);
    if after != before {
      IdsFromAppend(before, |invest0|, users[i].id);
    }
  }

  /** What Tracks says once every user has been seen. */
  lemma TracksDone(validOut: seq<User>, invest: seq<Int64>, investigating: set<Int64>,
                   validOut0: seq<User>, invest0: seq<Int64>, investigating0: set<Int64>,
                   users: seq<User>, valid: User -> bool, recursive: bool, successOnly: bool)
    requires |invest0| <= InvestCapacity
    requires Tracks(validOut, invest, investigating, validOut0, invest0, investigating0, users, valid, recursive, successOnly)
    ensures validOut == validOut0 + Seqs.Filter(users, valid)
    ensures invest == Pushed(invest0, users, valid, recursive, successOnly)
    ensures investigating == investigating0 + IdsFrom(invest, |invest0|)
    ensures investigating0 <= investigating && |invest0| <= |invest|
    ensures !recursive ==> invest == invest0 && investigating == investigating0
  {
    if !recursive {
      NoRecursionKeepsQueue(invest0, users, valid, successOnly);
    }
  }

  /** The ids of the users the recursion predicate selects, in order. */
  function ExpandIds(users: seq<User>, valid: User -> bool, recursive: bool, successOnly: bool): seq<Int64>
    decreases |users|
  {
    if users == [] then []
    else
      var e := ExpandIds(users[..|users| - 1], valid, recursive, successOnly);
      var u := users[|users| - 1];
      if ShouldExpand(recursive, successOnly, valid(u)) then e + [u.id] else e
  }

  /**
   * The buffer keeps what it had and gains the selected ids, oldest first,
   * up to its capacity; the rest are dropped.
   */
  lemma {:induction false} PushedIsCappedExpansion(q: seq<Int64>, users: seq<User>, valid: User -> bool, recursive: bool, successOnly: bool)
    requires |q| <= InvestCapacity
    ensures var e := ExpandIds(users, valid, recursive, successOnly);
      Pushed(q, users, valid, recursive, successOnly) == q + e[..if |e| < InvestCapacity - |q| then |e| else InvestCapacity - |q|]
    decreases |users|
  {
    if users != [] {
      var us := users[..|users| - 1];
      PushedIsCappedExpansion(q, us, valid, recursive, successOnly);
      var e := ExpandIds(us, valid, recursive, successOnly);
      var u := users[|users| - 1];
      if ShouldExpand(recursive, successOnly, valid(u)) {
        var e' := e + [u.id];
        assert e'[..|e|] == e;
        if |e| < InvestCapacity - |q| {
          assert e'[..|e| + 1] == e';
        } else {
          assert e'[..InvestCapacity - |q|] == e[..InvestCapacity - |q|];
        }
      }
    }
  }

  /** Without recursion nothing is queued. */
  lemma {:induction false} NoRecursionNoExpansion(users: seq<User>, valid: User -> bool, successOnly: bool)
    ensures ExpandIds(users, valid, false, successOnly) == []
    decreases |users|
  {
    if users != [] {
      NoRecursionNoExpansion(users[..|users| - 1], valid, successOnly);
    }
  }

  /** Without recursion the queue is left as it was and nothing is recorded. */
  lemma NoRecursionKeepsQueue(q: seq<Int64>, users: seq<User>, valid: User -> bool, successOnly: bool)
    requires |q| <= InvestCapacity
    ensures Pushed(q, users, valid, false, successOnly) == q
    ensures IdsFrom(q, |q|) == {}
  {
    NoRecursionNoExpansion(users, valid, successOnly);
    PushedIsCappedExpansion(q, users, valid, false, successOnly);
  }

  /** The ids of s from index n on. */
  function IdsFrom(s: seq<Int64>, n: nat): set<Int64> {
    set k | n <= k < |s| :: s[k]
  }

  /** Appending one id adds it to the ids from n on. */
  lemma IdsFromAppend(s: seq<Int64>, n: nat, id: Int64)
    requires n <= |s|
    ensures IdsFrom(s + [id], n) == IdsFrom(s, n) + {id}
  {
    var t := s + [id];
    assert t[|s|] == id;
    forall x | x in IdsFrom(t, n)
      ensures x in IdsFrom(s, n) + {id}
    {
      var k :| n <= k < |t| && t[k] == x;
      if k < |s| {
        assert s[k] == x;
      }
    }
    forall x | x in IdsFrom(s, n)
      ensures x in IdsFrom(t, n)
    {
      var k :| n <= k < |s| && s[k] == x;
      assert t[k] == x;
    }
  }

  /** How one failed call of UserFollowersFollowing for a dequeued user is handled. */
  datatype Handling = Handling(calls: nat, waitUntil: Option<int>, skipped: bool)

  /**
   * The error branch of getUserFollowersFollowing: a rate-limit API error
   * waits for the next window and is not retried, any other API error is
   * dropped, and any other error gets exactly one retry, whose failure skips
   * the user. first is the first call's error, retry the retry's.
   */
  function Handle(first: Option<RequestError>, retry: Option<RequestError>): (h: Handling)
    ensures h.calls == (if first.Some? && first.value.OtherError? then 2 else 1)
    ensures h.waitUntil.Some? <==> first.Some? && first.value.ApiError? && first.value.rateLimited
    ensures h.waitUntil.Some? ==> h.waitUntil.value == first.value.nextWindow
    ensures h.skipped <==> h.calls == 2 && retry.Some?
  {
    match first
    case None => Handling(1, None, false)
    case Some(ApiError(isRateLimitError, nextWindow)) =>
      if isRateLimitError then Handling(1, Some(nextWindow), false) else Handling(1, None, false)
    case Some(OtherError(_)) => Handling(2, None, retry.Some?)
  }

  /** A user is never asked for more than twice, and a rate limit never leads to a retry. */
  lemma HandleBounds(first: Option<RequestError>, retry: Option<RequestError>)
    ensures 1 <= Handle(first, retry).calls <= 2
    ensures Handle(first, retry).waitUntil.Some? ==> Handle(first, retry).calls == 1
    ensures first.None? ==> Handle(first, retry) == Handling(1, None, false)
  {
  }

  /** The channels and bookkeeping the pipeline stages share. */
  class Pipeline {
    /** The ids buffered in userInvstChn, oldest first. */
    var invest: seq<Int64>
    /** The ids AddInvestUser recorded and RemoveInvestUser has not removed. */
    var investigating: set<Int64>
    /** The users sent on validUserChn, in order. */
    var validOut: seq<User>

    predicate Valid()
      reads this
    {
      |invest| <= InvestCapacity
    }

    /** NewPipeline: every channel empty. */
    constructor()
      ensures invest == [] && investigating == {} && validOut == []
      ensures Valid()
    {
      invest := [];
      investigating := {};
      validOut := [];
    }

    /**
     * The select with a default case: push when the buffer has room and
     * record the id with AddInvestUser; drop the id otherwise.
     */
    method TryPushInvest(id: Int64) returns (pushed: bool)
      requires Valid()
      modifies this
      ensures pushed <==> |old(invest)| < InvestCapacity
      ensures pushed ==> invest == old(invest) + [id] && investigating == old(investigating) + {id}
      ensures !pushed ==> invest == old(invest) && investigating == old(investigating)
      ensures validOut == old(validOut) && Valid()
    {
      if |invest| < InvestCapacity {
        invest := invest + [id];
        investigating := investigating + {id};
        return true;
      }
      return false;
    }

    /**
     * One iteration of checkValidateUser: a user that matches is forwarded;
     * the user is queued for expansion when the recursion predicate holds
     * and the buffer has room. valid is CheckUserCriteria's verdict.
     */
    method CheckValidateUser(recursive: bool, successOnly: bool, user: User, valid: bool)
      requires Valid()
      modifies this
      ensures validOut == old(validOut) + (if valid then [user] else [])
      ensures var push := ShouldExpand(recursive, successOnly, valid) && |old(invest)| < InvestCapacity;
        && invest == old(invest) + (if push then [user.id] else [])
        && investigating == old(investigating) + (if push then {user.id} else {})
      ensures Valid() && |old(invest)| <= |invest|
      ensures old(investigating) <= investigating <= old(investigating) + {user.id}
      ensures !recursive ==> invest == old(invest) && investigating == old(investigating)
    {
      if valid {
        validOut := validOut + [user];
      }
      if (recursive && successOnly && valid) || (recursive && !successOnly) {
        var _ := TryPushInvest(user.id);
      }
    }

    /**
     * checkValidateUser over the users received on userDetailsChn: exactly
     * the matching ones are forwarded, in order, and the investigation
     * buffer never exceeds its capacity.
     */
    method CheckValidateUsers(recursive: bool, successOnly: bool, users: seq<User>, valid: User -> bool)
      requires Valid()
      modifies this
      ensures validOut == old(validOut) + Seqs.Filter(users, valid)
      ensures invest == Pushed(old(invest), users, valid, recursive, successOnly)
      ensures investigating == old(investigating) + IdsFrom(invest, |old(invest)|)
      ensures old(investigating) <= investigating
      ensures Valid() && |old(invest)| <= |invest|
      ensures !recursive ==> invest == old(invest) && investigating == old(investigating)
    {
      ghost var invest0, investigating0, validOut0 := invest, investigating, validOut;
      var i := 0;
      while i < |users|
        invariant 0 <= i <= |users|
        invariant Valid()
        invariant Tracks(validOut, invest, investigating, validOut0, invest0, investigating0, users[..i], valid, recursive, successOnly)
      {
        ghost var out, before, beforeSet := validOut, invest, investigating;
        CheckValidateUser(recursive, successOnly, users[i], valid(users[i]));
        TracksStep(out, before, beforeSet, validOut, invest, investigating,
                   validOut0, invest0, investigating0, users, i, valid, recursive, successOnly);
        i := i + 1;
      }
      assert users[..i] == users;
      TracksDone(validOut, invest, investigating, validOut0, invest0, investigating0, users, valid, recursive, successOnly);
    }

    /**
     * One iteration of getUserFollowersFollowing's loop: take the oldest
     * buffered id (the receive waits until there is one), drop it from the
     * investigating set, then ask for its lists; the error branch decides
     * whether to wait, retry once or skip. fetch answers the first call and
     * refetch the retry.
     */
    method InvestigateNext(following: bool, followers: bool,
                           fetch: (ListKind, Params) -> Result<Page, RequestError>,
                           refetch: (ListKind, Params) -> Result<Page, RequestError>,
                           ghost rank: string -> nat)
      returns (userID: Int64, sent: seq<User>, h: Handling)
      requires Valid() && |invest| > 0
      requires CursorsDescend(fetch, rank) && CursorsDescend(refetch, rank)
      modifies this
      ensures userID == old(invest[0])
      ensures invest == old(invest[1..]) && investigating == old(investigating) - {userID}
      ensures validOut == old(validOut) && Valid()
      ensures var v := BaseParams("", userID);
        var first := Crawl(fetch, rank, following, followers, v);
        var second := Crawl(refetch, rank, following, followers, v);
        && h == Handle(first.err, second.err)
        && sent == first.users + (if h.calls == 2 then second.users else [])
    {
      userID := invest[0];
      invest := invest[1..];
      investigating := investigating - {userID};
      var err, users, _ := UserFollowersFollowing(following, followers, "", userID, fetch, rank);
      sent := users;
      h := Handling(1, None, false);
      if err.Some? {
        match err.value
        case ApiError(isRateLimitError, nextWindow) =>
          if isRateLimitError {
            h := Handling(1, Some(nextWindow), false);
          }
        case OtherError(_) =>
          var err2, users2, _ := UserFollowersFollowing(following, followers, "", userID, refetch, rank);
          sent := sent + users2;
          h := Handling(2, None, err2.Some?);
      }
    }
  }
}
