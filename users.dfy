/**
 * The Twitter requests of request/users.go. The API client is an abstract
 * page oracle: given the list asked for and the query parameters it answers
 * with one page of users and the next cursor, or with an error.
 */
module Request {
  import opened Wrappers
  import opened Decimal
  import opened Anaconda
  import Seqs
  import Finder

  /** friends/list (the accounts a user follows) or followers/list. */
  datatype ListKind = FriendsList | FollowersList

  /** One cursored page: its users and Next_cursor_str. */
  datatype Page = Page(users: seq<User>, nextCursor: string)

  /**
   * The errors a request can return: the client's *ApiError, with what its
   * RateLimitCheck reports, or any other error.
   */
  datatype RequestError =
    | ApiError(rateLimited: bool, nextWindow: int)
    | OtherError(message: string)

  /** url.Values with one value per key. */
  type Params = map<string, string>

  /** One API call: the list asked for and the query parameters sent. */
  datatype Call = Call(kind: ListKind, params: Params)

  /** What a run of calls did: the calls made, the users sent out, the error returned. */
  datatype Trace = Trace(calls: seq<Call>, users: seq<User>, err: Option<RequestError>)

  /** The answer of the oracle to a call. */
  function Answer(fetch: (ListKind, Params) -> Result<Page, RequestError>, c: Call): Result<Page, RequestError> {
    fetch(c.kind, c.params)
  }

  /**
   * The oracle never cycles: every page that is not the last one names a
   * next cursor of smaller rank than the cursor it was asked for. The code
   * itself loops for as long as the API keeps naming cursors.
   */
  ghost predicate CursorsDescend(fetch: (ListKind, Params) -> Result<Page, RequestError>, rank: string -> nat) {
    forall k, p :: "cursor" in p && fetch(k, p).Ok? && fetch(k, p).value.nextCursor != "0" ==>
      rank(fetch(k, p).value.nextCursor) < rank(p["cursor"])
  }

  /** The query parameters identifying the user, before any cursor is set. */
  function BaseParams(username: string, userID: Int64): (v: Params)
    ensures "user_id" in v <==> userID != 0
    ensures "user_id" in v ==> v["user_id"] == Itoa(userID)
    ensures "screen_name" in v <==> username != ""
    ensures "screen_name" in v ==> v["screen_name"] == username
    ensures v.Keys <= {"user_id", "screen_name"}
  {
    var withID: Params := if userID != 0 then map["user_id" := Itoa(userID)] else map[];
    if username != "" then withID["screen_name" := username] else withID
  }

  /** Everything a and then b did; the error is b's. */
  function Then(a: Trace, b: Trace): Trace {
    Trace(a.calls + b.calls, a.users + b.users, b.err)
  }

  lemma ThenAssoc(a: Trace, b: Trace, c: Trace)
    ensures Then(Then(a, b), c) == Then(a, Then(b, c))
  {
    assert a.calls + b.calls + c.calls == a.calls + (b.calls + c.calls);
    assert a.users + b.users + c.users == a.users + (b.users + c.users);
  }

  /** Paging through one list from cursor onwards, until cursor "0" or the first error. */
  ghost function Listing(fetch: (ListKind, Params) -> Result<Page, RequestError>, rank: string -> nat,
                         kind: ListKind, v: Params, cursor: string): (r: Trace)
    requires CursorsDescend(fetch, rank)
    ensures |r.calls| >= 1 && r.calls[0] == Call(kind, v["cursor" := cursor])
    ensures forall i :: 0 <= i < |r.calls| ==> r.calls[i].kind == kind
    decreases rank(cursor)
  {
    var call := Call(kind, v["cursor" := cursor]);
    match Answer(fetch, call)
    case Err(e) => Trace([call], [], Some(e))
    case Ok(page) =>
      if page.nextCursor == "0" then Trace([call], page.users, None)
      else Then(Trace([call], page.users, None), Listing(fetch, rank, kind, v, page.nextCursor))
  }

  /** The whole of UserFollowersFollowing: the following list, then the followers list. */
  ghost function Crawl(fetch: (ListKind, Params) -> Result<Page, RequestError>, rank: string -> nat,
                       following: bool, followers: bool, v: Params): (r: Trace)
    requires CursorsDescend(fetch, rank)
    ensures r.calls == [] <==> !following && !followers
    ensures r.calls == [] ==> r.users == [] && r.err == None
    ensures following ==> r.calls[0] == Call(FriendsList, v["cursor" := "-1"])
    ensures !following && followers ==> r.calls[0] == Call(FollowersList, v["cursor" := "-1"])
  {
    var first := if following then Listing(fetch, rank, FriendsList, v, "-1") else Trace([], [], None);
    if first.err.Some? || !followers then first
    else Then(first, Listing(fetch, rank, FollowersList, v, "-1"))
  }

  /**
   * UserFollowersFollowing: sends out every user of every page of the lists
   * the configuration asks for; the first error ends the call and is returned.
   */
  method UserFollowersFollowing(following: bool, followers: bool, username: string, userID: Int64,
                                fetch: (ListKind, Params) -> Result<Page, RequestError>, ghost rank: string -> nat)
    returns (err: Option<RequestError>, sent: seq<User>, calls: seq<Call>)
    requires CursorsDescend(fetch, rank)
    ensures Trace(calls, sent, err) == Crawl(fetch, rank, following, followers, BaseParams(username, userID))
  {
    var v := QueryParams(username, userID);
    ghost var v0 := v;
    err, sent, calls := None, [], [];

    if following {
      var t;
      v, t := PageThrough(FriendsList, v, v0, fetch, rank);
      calls, sent := t.calls, t.users;
      if t.err.Some? {
        err := t.err;
        return;
      }
    }
    assert Trace(calls, sent, err) == if following then Listing(fetch, rank, FriendsList, v0, "-1") else Trace([], [], None);
    if followers {
      var t;
      ghost var first := Trace(calls, sent, err);
      v, t := PageThrough(FollowersList, v, v0, fetch, rank);
      calls, sent, err := calls + t.calls, sent + t.users, t.err;
      assert Trace(calls, sent, err) == Then(first, t);
    }
  }

  /** The url.Values identifying the user: user_id when userID is set, screen_name when username is. */
  method QueryParams(username: string, userID: Int64) returns (v: Params)
    ensures v == BaseParams(username, userID)
  {
    v := map[];
    if userID != 0 {
      v := v["user_id" := Itoa(userID)];
    }
    if username != "" {
      v := v["screen_name" := username];
    }
  }

  /**
   * The cursor loop UserFollowersFollowing runs for each list: from cursor
   * "-1", set the cursor, fetch, send the page's users, and go on with
   * Next_cursor_str until it is "0"; an error stops the loop.
   */
  method PageThrough(kind: ListKind, v: Params, ghost v0: Params,
                     fetch: (ListKind, Params) -> Result<Page, RequestError>, ghost rank: string -> nat)
    returns (v': Params, t: Trace)
    requires CursorsDescend(fetch, rank)
    requires "cursor" !in v0
    requires v == v0 || ("cursor" in v && v == v0["cursor" := v["cursor"]])
    ensures v' == v0 || ("cursor" in v' && v' == v0["cursor" := v'["cursor"]])
    ensures t == Listing(fetch, rank, kind, v0, "-1")
  {
    v' := v;
    var calls: seq<Call> := [];
    var sent: seq<User> := [];
    var nextCursor := "-1";
    while true
      invariant v' == v0 || ("cursor" in v' && v' == v0["cursor" := v'["cursor"]])
      invariant Then(Trace(calls, sent, None), Listing(fetch, rank, kind, v0, nextCursor))
             == Listing(fetch, rank, kind, v0, "-1")
      decreases rank(nextCursor)
    {
      v' := v'["cursor" := nextCursor];
      assert v' == v0["cursor" := nextCursor];
      var cursor := fetch(kind, v');
      ListingStep(fetch, rank, kind, v0, nextCursor, calls, sent);
      assert cursor == Answer(fetch, Call(kind, v'));
      calls := calls + [Call(kind, v')];
      if cursor.Err? {
        return v', Trace(calls, sent, Some(cursor.error));
      }
      sent := Send(sent, cursor.value.users);
      nextCursor := cursor.value.nextCursor;
      if nextCursor == "0" {
        break;
      }
    }
    t := Trace(calls, sent, None);
  }

  /** One turn of the cursor loop, stated on the traces before and after it. */
  lemma ListingStep(fetch: (ListKind, Params) -> Result<Page, RequestError>, rank: string -> nat,
                    kind: ListKind, v0: Params, cursor: string, calls: seq<Call>, sent: seq<User>)
    requires CursorsDescend(fetch, rank)
    ensures var call := Call(kind, v0["cursor" := cursor]);
      var a := Answer(fetch, call);
      var here := Then(Trace(calls, sent, None), Listing(fetch, rank, kind, v0, cursor));
      && (a.Err? ==> here == Trace(calls + [call], sent, Some(a.error)))
      && (a.Ok? && a.value.nextCursor == "0" ==> here == Trace(calls + [call], sent + a.value.users, None))
      && (a.Ok? && a.value.nextCursor != "0" ==>
            here == Then(Trace(calls + [call], sent + a.value.users, None), Listing(fetch, rank, kind, v0, a.value.nextCursor))
            && rank(a.value.nextCursor) < rank(cursor))
  {
    var call := Call(kind, v0["cursor" := cursor]);
    var a := Answer(fetch, call);
    if a.Ok? && a.value.nextCursor != "0" {
      ThenAssoc(Trace(calls, sent, None), Trace([call], a.value.users, None), Listing(fetch, rank, kind, v0, a.value.nextCursor));
    }
  }

  /** The `userDetailsChn <- user` loop: every user of the page, in page order. */
  method Send(sent: seq<User>, users: seq<User>) returns (sent': seq<User>)
    ensures sent' == sent + users
  {
    sent' := sent;
    var i := 0;
    while i < |users|
      invariant 0 <= i <= |users|
      invariant sent' == sent + users[..i]
    {
      sent' := sent' + [users[i]];
      i := i + 1;
    }
    assert users[..i] == users;
  }

  /**
   * CheckUsersLookup: looks the ids up and keeps the users the finder
   * accepts, in order; a lookup error is returned with no users.
   */
  method CheckUsersLookup(f: Finder.Finder, ids: seq<Int64>, lookup: seq<Int64> -> Result<seq<User>, RequestError>)
    returns (r: Result<seq<User>, RequestError>)
    ensures lookup(ids).Err? ==> r == Err(lookup(ids).error)
    ensures lookup(ids).Ok? ==> r == Ok(Seqs.Filter(lookup(ids).value, Finder.Matcher(f.criteria, f.parseDate, f.filters)))
  {
    var result := [];
    var usersProfile := lookup(ids);
    if usersProfile.Err? {
      return Err(usersProfile.error);
    }
    var users := usersProfile.value;
    var i := 0;
    while i < |users|
      invariant 0 <= i <= |users|
      invariant result == Seqs.Filter(users[..i], Finder.Matcher(f.criteria, f.parseDate, f.filters))
    {
      var ok, _ := f.CheckUser(users[i]);
      Seqs.FilterAppend(users[..i], users[i], Finder.Matcher(f.criteria, f.parseDate, f.filters));
      assert users[..i + 1] == users[..i] + [users[i]];
      if ok {
        result := result + [users[i]];
      }
      i := i + 1;
    }
    assert users[..i] == users;
    return Ok(result);
  }

  // ---------------------------------------------------------------- properties

  /** The users of the pages answered to calls, in call order. */
  function PagesUsers(fetch: (ListKind, Params) -> Result<Page, RequestError>, calls: seq<Call>): seq<User> {
    if calls == [] then []
    else (if Answer(fetch, calls[0]).Ok? then Answer(fetch, calls[0]).value.users else []) + PagesUsers(fetch, calls[1..])
  }

  lemma {:induction false} PagesUsersConcat(fetch: (ListKind, Params) -> Result<Page, RequestError>, a: seq<Call>, b: seq<Call>)
    ensures PagesUsers(fetch, a + b) == PagesUsers(fetch, a) + PagesUsers(fetch, b)
  {
    if a != [] {
      assert (a + b)[1..] == a[1..] + b;
      PagesUsersConcat(fetch, a[1..], b);
    } else {
      assert a + b == b;
    }
  }

  /** Every call of a listing asks for that list with the user's parameters and some cursor. */
  predicate ListCall(kind: ListKind, v: Params, c: Call) {
    c.kind == kind && "cursor" in c.params && c.params == v["cursor" := c.params["cursor"]]
  }

  /**
   * A listing starts at the given cursor and asks for each page's
   * Next_cursor_str in turn; every page but the last was answered and named
   * a cursor other than "0"; the last was an error (which the listing
   * returns) or named cursor "0".
   */
  lemma {:induction false} ListingCalls(fetch: (ListKind, Params) -> Result<Page, RequestError>, rank: string -> nat,
                                        kind: ListKind, v: Params, cursor: string)
    requires CursorsDescend(fetch, rank)
    ensures var t := Listing(fetch, rank, kind, v, cursor);
      && |t.calls| >= 1
      && t.calls[0] == Call(kind, v["cursor" := cursor])
      && (forall i :: 0 <= i < |t.calls| ==> ListCall(kind, v, t.calls[i]))
      && (forall i :: 0 <= i < |t.calls| - 1 ==>
            Answer(fetch, t.calls[i]).Ok? && Answer(fetch, t.calls[i]).value.nextCursor != "0"
            && t.calls[i + 1].params["cursor"] == Answer(fetch, t.calls[i]).value.nextCursor)
      && (t.err.Some? <==> Answer(fetch, t.calls[|t.calls| - 1]).Err?)
      && (t.err.Some? ==> t.err.value == Answer(fetch, t.calls[|t.calls| - 1]).error)
      && (t.err.None? ==> Answer(fetch, t.calls[|t.calls| - 1]).value.nextCursor == "0")
    decreases rank(cursor)
  {
    var call := Call(kind, v["cursor" := cursor]);
    assert call.params["cursor"] == cursor;
    match Answer(fetch, call)
    case Err(e) =>
    case Ok(page) =>
      if page.nextCursor != "0" {
        ListingCalls(fetch, rank, kind, v, page.nextCursor);
        var rest := Listing(fetch, rank, kind, v, page.nextCursor);
        var t := Listing(fetch, rank, kind, v, cursor);
        assert t.calls == [call] + rest.calls;
        forall i | 0 <= i < |t.calls| - 1
          ensures Answer(fetch, t.calls[i]).Ok? && Answer(fetch, t.calls[i]).value.nextCursor != "0"
          ensures t.calls[i + 1].params["cursor"] == Answer(fetch, t.calls[i]).value.nextCursor
        {
          if i > 0 {
            assert t.calls[i] == rest.calls[i - 1] && t.calls[i + 1] == rest.calls[i];
          }
        }
      }
  }

  /** A listing sends out exactly the users of the pages it was answered, in page order. */
  lemma {:induction false} ListingUsers(fetch: (ListKind, Params) -> Result<Page, RequestError>, rank: string -> nat,
                                        kind: ListKind, v: Params, cursor: string)
    requires CursorsDescend(fetch, rank)
    ensures Listing(fetch, rank, kind, v, cursor).users == PagesUsers(fetch, Listing(fetch, rank, kind, v, cursor).calls)
    decreases rank(cursor)
  {
    var call := Call(kind, v["cursor" := cursor]);
    assert call.params["cursor"] == cursor;
    var t := Listing(fetch, rank, kind, v, cursor);
    match Answer(fetch, call)
    case Err(e) =>
      assert t.calls == [call];
    case Ok(page) =>
      if page.nextCursor != "0" {
        ListingUsers(fetch, rank, kind, v, page.nextCursor);
        var rest := Listing(fetch, rank, kind, v, page.nextCursor);
        assert t.calls == [call] + rest.calls;
        PagesUsersConcat(fetch, [call], rest.calls);
      } else {
        assert t.calls == [call];
      }
  }

  /**
   * The following list is paged completely before the followers list is
   * asked for; a list is asked for only when its flag is set, and always
   * from cursor "-1".
   */
  lemma CrawlOrder(fetch: (ListKind, Params) -> Result<Page, RequestError>, rank: string -> nat,
                   following: bool, followers: bool, v: Params)
    requires CursorsDescend(fetch, rank)
    ensures var t := Crawl(fetch, rank, following, followers, v);
      && (forall i, j :: 0 <= i < j < |t.calls| && t.calls[i].kind == FollowersList ==> t.calls[j].kind == FollowersList)
      && (!following ==> forall i :: 0 <= i < |t.calls| ==> t.calls[i].kind == FollowersList)
      && (!followers ==> forall i :: 0 <= i < |t.calls| ==> t.calls[i].kind == FriendsList)
      && (following ==> |t.calls| > 0 && t.calls[0] == Call(FriendsList, v["cursor" := "-1"]))
      && (!following && followers ==> |t.calls| > 0 && t.calls[0] == Call(FollowersList, v["cursor" := "-1"]))
  {
    ListingCalls(fetch, rank, FriendsList, v, "-1");
    ListingCalls(fetch, rank, FollowersList, v, "-1");
  }

  /**
   * The first error ends the call: it is the answer to the last call made,
   * and every earlier call was answered with a page. A call that returns no
   * error had every request answered.
   */
  lemma CrawlErrorAborts(fetch: (ListKind, Params) -> Result<Page, RequestError>, rank: string -> nat,
                         following: bool, followers: bool, v: Params)
    requires CursorsDescend(fetch, rank)
    ensures var t := Crawl(fetch, rank, following, followers, v);
      && (forall i :: 0 <= i < |t.calls| - 1 ==> Answer(fetch, t.calls[i]).Ok?)
      && (t.err.Some? ==> |t.calls| > 0 && Answer(fetch, t.calls[|t.calls| - 1]) == Err(t.err.value))
      && (t.err.None? ==> forall i :: 0 <= i < |t.calls| ==> Answer(fetch, t.calls[i]).Ok?)
  {
    ListingAborts(fetch, rank, FriendsList, v, "-1");
    ListingAborts(fetch, rank, FollowersList, v, "-1");
    var a := Listing(fetch, rank, FriendsList, v, "-1");
    var b := Listing(fetch, rank, FollowersList, v, "-1");
    if following && followers && a.err.None? {
      AbortsConcat(fetch, a.calls, b.calls, b.err);
    }
    var t := Crawl(fetch, rank, following, followers, v);
    assert Aborts(fetch, t.calls, t.err);
  }

  /** Every call but the last was answered with a page; the last answered the error, if any. */
  predicate Aborts(fetch: (ListKind, Params) -> Result<Page, RequestError>, calls: seq<Call>, err: Option<RequestError>) {
    && (forall i :: 0 <= i < |calls| - 1 ==> Answer(fetch, calls[i]).Ok?)
    && (err.Some? ==> |calls| > 0 && Answer(fetch, calls[|calls| - 1]) == Err(err.value))
    && (err.None? ==> forall i :: 0 <= i < |calls| ==> Answer(fetch, calls[i]).Ok?)
  }

  lemma ListingAborts(fetch: (ListKind, Params) -> Result<Page, RequestError>, rank: string -> nat,
                      kind: ListKind, v: Params, cursor: string)
    requires CursorsDescend(fetch, rank)
    ensures var t := Listing(fetch, rank, kind, v, cursor); Aborts(fetch, t.calls, t.err)
  {
    ListingCalls(fetch, rank, kind, v, cursor);
  }

  lemma AbortsConcat(fetch: (ListKind, Params) -> Result<Page, RequestError>, a: seq<Call>, b: seq<Call>, err: Option<RequestError>)
    requires Aborts(fetch, a, None) && Aborts(fetch, b, err)
    ensures Aborts(fetch, a + b, err)
  {
    var c := a + b;
    forall i | 0 <= i < |c| - 1 ensures Answer(fetch, c[i]).Ok? {
      if i >= |a| {
        assert c[i] == b[i - |a|];
      }
    }
    if err.None? {
      forall i | 0 <= i < |c| ensures Answer(fetch, c[i]).Ok? {
        if i >= |a| {
          assert c[i] == b[i - |a|];
        }
      }
    } else {
      assert c[|c| - 1] == b[|b| - 1];
    }
  }

  /** Every user of every page answered is sent out, in page order. */
  lemma CrawlUsers(fetch: (ListKind, Params) -> Result<Page, RequestError>, rank: string -> nat,
                   following: bool, followers: bool, v: Params)
    requires CursorsDescend(fetch, rank)
    ensures var t := Crawl(fetch, rank, following, followers, v);
      t.users == PagesUsers(fetch, t.calls)
  {
    ListingUsers(fetch, rank, FriendsList, v, "-1");
    ListingUsers(fetch, rank, FollowersList, v, "-1");
    var a := Listing(fetch, rank, FriendsList, v, "-1");
    var b := Listing(fetch, rank, FollowersList, v, "-1");
    var t := Crawl(fetch, rank, following, followers, v);
    if following && followers && a.err.None? {
      PagesUsersConcat(fetch, a.calls, b.calls);
    } else if !following && followers {
      assert t.calls == b.calls && t.users == b.users;
    }
  }
}
