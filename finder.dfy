/**
 * The criteria engine of finder/finder.go: a list of named filters compiled
 * once from the search criteria, and the checks that run every registered
 * filter over a user record.
 */
module Finder {
  import opened Wrappers
  import opened Text
  import opened Config
  import opened Anaconda
  import Seqs

  /** The filter functions that BuildSearchCriteria may register. */
  datatype Filter =
    | HandleFilter | NameFilter | BioFilter | LocationFilter
    | FollowersFilter | FollowingFilter | LikesFilter | TweetsFilter | ListsFilter
    | JoinedFilter | VerifiedFilter

  /** The tag each filter function returns beside its verdict. */
  function FilterName(f: Filter): string {
    match f
    case HandleFilter => "Handle"
    case NameFilter => "Name"
    case BioFilter => "BIO"
    case LocationFilter => "LOCATION"
    case FollowersFilter => "FOLLOWERS"
    case FollowingFilter => "FOLLOWING"
    case LikesFilter => "LIKES"
    case TweetsFilter => "TWEETS"
    case ListsFilter => "LISTS"
    case JoinedFilter => "JOINED"
    case VerifiedFilter => "VERIFIED"
  }

  // ---------------------------------------------------------------- specification

  /** Some keyword is a case-insensitive substring of the field. */
  predicate KeywordMatch(field: string, keywords: seq<string>) {
    exists k :: k in keywords && Contains(ToLower(field), ToLower(k))
  }

  /** Exclusive bounds on a count; a bound of 0 (or less) is no bound. */
  predicate CountInRange(r: FromToNumber, count: int) {
    (r.from > 0 ==> r.from < count) && (r.to > 0 ==> count < r.to)
  }

  /** Exclusive bounds on a join instant in Unix seconds; a zero time is no bound. */
  predicate JoinedInRange(r: FromToDate, joined: int) {
    (!IsZero(r.from) ==> r.from.unix < joined) && (!IsZero(r.to) ==> joined < r.to.unix)
  }

  /** The verdict filter f gives on user u under criteria c. */
  predicate Passes(c: SearchCriteria, parse: string -> Option<Time>, f: Filter, u: User) {
    match f
    case HandleFilter => KeywordMatch(u.screenName, c.searchHandleContext)
    case NameFilter => KeywordMatch(u.name, c.searchNameContext)
    case BioFilter => KeywordMatch(u.description, c.searchBioContext)
    case LocationFilter => KeywordMatch(u.location, c.searchLocationContext)
    case FollowersFilter => CountInRange(c.followersCountBetween, u.followersCount)
    case FollowingFilter => CountInRange(c.followingCountBetween, u.friendsCount)
    case LikesFilter => CountInRange(c.likesCountBetween, u.favouritesCount)
    case TweetsFilter => CountInRange(c.tweetsCountBetween, u.statusesCount)
    // The lists filter reads the tweets range and the statuses count.
    case ListsFilter => CountInRange(c.tweetsCountBetween, u.statusesCount)
    case JoinedFilter => JoinedInRange(c.joinedBetween, StringToDate(parse, u.createdAt).unix)
    case VerifiedFilter => !(c.verified && !u.verified)
  }

  /** A user matches when every registered filter passes. */
  predicate Matches(c: SearchCriteria, parse: string -> Option<Time>, filters: seq<Filter>, u: User) {
    forall i :: 0 <= i < |filters| ==> Passes(c, parse, filters[i], u)
  }

  function Matcher(c: SearchCriteria, parse: string -> Option<Time>, filters: seq<Filter>): User -> bool {
    u => Matches(c, parse, filters, u)
  }

  predicate NumberActive(r: FromToNumber) {
    r.from > 0 || r.to > 0
  }

  predicate DateActive(r: FromToDate) {
    !IsZero(r.from) || !IsZero(r.to)
  }

  function When(b: bool, f: Filter): seq<Filter> {
    if b then [f] else []
  }

  /** Whether BuildSearchCriteria registers filter f for criteria c. */
  predicate Active(c: SearchCriteria, f: Filter) {
    match f
    case HandleFilter => |c.searchHandleContext| > 1
    case NameFilter => |c.searchNameContext| > 1
    case BioFilter => |c.searchBioContext| > 1
    case LocationFilter => |c.searchLocationContext| > 1
    case FollowersFilter => NumberActive(c.followersCountBetween)
    case FollowingFilter => NumberActive(c.followingCountBetween)
    case LikesFilter => NumberActive(c.likesCountBetween)
    case TweetsFilter => NumberActive(c.tweetsCountBetween)
    case ListsFilter => NumberActive(c.listsCountBetween)
    case JoinedFilter => DateActive(c.joinedBetween)
    case VerifiedFilter => c.verified
  }

  /** The number of filter kinds. */
  const FilterCount := 11

  /** The position of f in BuildSearchCriteria's sequence of checks. */
  function Rank(f: Filter): (k: nat)
    ensures k < FilterCount
  {
    match f
    case HandleFilter => 0
    case NameFilter => 1
    case BioFilter => 2
    case LocationFilter => 3
    case FollowersFilter => 4
    case FollowingFilter => 5
    case LikesFilter => 6
    case TweetsFilter => 7
    case ListsFilter => 8
    case JoinedFilter => 9
    case VerifiedFilter => 10
  }

  /** The filter BuildSearchCriteria considers k-th. */
  function FilterAt(k: nat): (f: Filter)
    requires k < FilterCount
    ensures Rank(f) == k
  {
    if k == 0 then HandleFilter
    else if k == 1 then NameFilter
    else if k == 2 then BioFilter
    else if k == 3 then LocationFilter
    else if k == 4 then FollowersFilter
    else if k == 5 then FollowingFilter
    else if k == 6 then LikesFilter
    else if k == 7 then TweetsFilter
    else if k == 8 then ListsFilter
    else if k == 9 then JoinedFilter
    else VerifiedFilter
  }

  /** The filters registered by the first k checks of BuildSearchCriteria. */
  function RegisteredUpTo(c: SearchCriteria, k: nat): seq<Filter>
    requires k <= FilterCount
  {
    if k == 0 then []
    else RegisteredUpTo(c, k - 1) + (if Active(c, FilterAt(k - 1)) then [FilterAt(k - 1)] else [])
  }

  /** The filters BuildSearchCriteria registers for c, in registration order. */
  function Registered(c: SearchCriteria): seq<Filter> {
    RegisteredUpTo(c, FilterCount)
  }

  // ---------------------------------------------------------------- filter functions

  /**
   * handleFilter, nameFilter, bioFilter and locationFilter: search the
   * keywords in order and stop at the first one found in the field.
   */
  method KeywordFilter(field: string, keywords: seq<string>) returns (ok: bool)
    ensures ok <==> KeywordMatch(field, keywords)
  {
    ok := false;
    var i := 0;
    while i < |keywords|
      invariant 0 <= i <= |keywords|
      invariant !ok
      invariant forall j :: 0 <= j < i ==> !Contains(ToLower(field), ToLower(keywords[j]))
    {
      if Contains(ToLower(field), ToLower(keywords[i])) {
        ok := true;
        break;
      }
      i := i + 1;
    }
  }

  /** followersFilter, followingFilter, likesFilter, tweetsFilter and listsFilter. */
  function CountFilter(r: FromToNumber, count: int): (ok: bool)
    ensures ok <==> (r.from <= 0 || r.from < count) && (r.to <= 0 || count < r.to)
  {
    var lowOk := !(r.from > 0 && count <= r.from);
    var highOk := !(r.to > 0 && count >= r.to);
    lowOk && highOk
  }

  /** joinedFilter: the join time in Unix seconds against both bounds. */
  function JoinedCheck(r: FromToDate, parse: string -> Option<Time>, createdAt: string): (ok: bool)
    ensures parse(createdAt).None? && !IsZero(r.from) && r.from.unix >= ZeroUnix ==> !ok
    ensures ok <==> JoinedInRange(r, StringToDate(parse, createdAt).unix)
  {
    var joinedUnx := StringToDate(parse, createdAt).unix;
    var lowOk := IsZero(r.from) || joinedUnx > r.from.unix;
    var highOk := IsZero(r.to) || joinedUnx < r.to.unix;
    lowOk && highOk
  }

  /** verifiedFilter: fails exactly when verification is required and absent. */
  function VerifiedCheck(required: bool, verified: bool): (ok: bool)
    ensures !ok <==> required && !verified
  {
    !(required && !verified)
  }

  /**
   * The global finder object: the criteria copied from the configuration and
   * the filters compiled from them, built at most once.
   */
  class Finder {
    /** time.Parse with the Ruby date layout, left abstract. */
    const parseDate: string -> Option<Time>
    var criteria: SearchCriteria
    var filters: seq<Filter>
    var built: bool

    constructor(parseDate: string -> Option<Time>)
      ensures this.parseDate == parseDate
      ensures filters == [] && !built
    {
      this.parseDate := parseDate;
      criteria := SearchCriteria([], [], [], [], FromToNumber(0, 0), FromToNumber(0, 0), FromToNumber(0, 0),
        FromToNumber(0, 0), FromToNumber(0, 0), FromToDate(ZeroTime, ZeroTime), false);
      filters := [];
      built := false;
    }

    /** BuildSearchCriteria: the first call compiles c; later calls do nothing. */
    method BuildSearchCriteria(c: SearchCriteria)
      modifies this
      ensures built
      ensures old(built) ==> criteria == old(criteria) && filters == old(filters)
      ensures !old(built) ==> criteria == c && filters == old(filters) + Registered(c)
    {
      if built {
        return;
      }
      built := true;
      criteria := c;
      ghost var base := filters;
      RegisterKeywordFilters(c, base);
      RegisterCountFilters(c, base);
      RegisterProfileFilters(c, base);
    }

    /** The four keyword checks of BuildSearchCriteria. */
    method RegisterKeywordFilters(c: SearchCriteria, ghost base: seq<Filter>)
      requires filters == base
      modifies this
      ensures filters == base + RegisteredUpTo(c, 4)
      ensures criteria == old(criteria) && built == old(built)
    {
      Register(|c.searchHandleContext| > 1, HandleFilter, c, base);
      Register(|c.searchNameContext| > 1, NameFilter, c, base);
      Register(|c.searchBioContext| > 1, BioFilter, c, base);
      Register(|c.searchLocationContext| > 1, LocationFilter, c, base);
    }

    /** The five count checks of BuildSearchCriteria. */
    method RegisterCountFilters(c: SearchCriteria, ghost base: seq<Filter>)
      requires filters == base + RegisteredUpTo(c, 4)
      modifies this
      ensures filters == base + RegisteredUpTo(c, 9)
      ensures criteria == old(criteria) && built == old(built)
    {
      Register(c.followersCountBetween.from > 0 || c.followersCountBetween.to > 0, FollowersFilter, c, base);
      Register(c.followingCountBetween.from > 0 || c.followingCountBetween.to > 0, FollowingFilter, c, base);
      Register(c.likesCountBetween.from > 0 || c.likesCountBetween.to > 0, LikesFilter, c, base);
      Register(c.tweetsCountBetween.from > 0 || c.tweetsCountBetween.to > 0, TweetsFilter, c, base);
      Register(c.listsCountBetween.from > 0 || c.listsCountBetween.to > 0, ListsFilter, c, base);
    }

    /** The join-date and verified checks of BuildSearchCriteria. */
    method RegisterProfileFilters(c: SearchCriteria, ghost base: seq<Filter>)
      requires filters == base + RegisteredUpTo(c, 9)
      modifies this
      ensures filters == base + RegisteredUpTo(c, FilterCount)
      ensures criteria == old(criteria) && built == old(built)
    {
      Register(!IsZero(c.joinedBetween.from) || !IsZero(c.joinedBetween.to), JoinedFilter, c, base);
      Register(c.verified, VerifiedFilter, c, base);
    }

    /**
     * One guarded append of BuildSearchCriteria: the k-th filter is appended
     * when its condition holds, so the registered list grows by one step of
     * Registered(c).
     */
    method Register(cond: bool, f: Filter, ghost c: SearchCriteria, ghost base: seq<Filter>)
      requires cond == Active(c, f)
      requires filters == base + RegisteredUpTo(c, Rank(f))
      modifies this
      ensures filters == base + RegisteredUpTo(c, Rank(f) + 1)
      ensures criteria == old(criteria) && built == old(built)
    {
      if cond {
        filters := filters + [f];
      }
    }

    /** Runs one registered filter: its tag and its verdict. */
    method RunFilter(f: Filter, u: User) returns (name: string, ok: bool)
      ensures name == FilterName(f)
      ensures ok == Passes(criteria, parseDate, f, u)
    {
      name := FilterName(f);
      match f
      case HandleFilter => ok := KeywordFilter(u.screenName, criteria.searchHandleContext);
      case NameFilter => ok := KeywordFilter(u.name, criteria.searchNameContext);
      case BioFilter => ok := KeywordFilter(u.description, criteria.searchBioContext);
      case LocationFilter => ok := KeywordFilter(u.location, criteria.searchLocationContext);
      case FollowersFilter => ok := CountFilter(criteria.followersCountBetween, u.followersCount);
      case FollowingFilter => ok := CountFilter(criteria.followingCountBetween, u.friendsCount);
      case LikesFilter => ok := CountFilter(criteria.likesCountBetween, u.favouritesCount);
      case TweetsFilter => ok := CountFilter(criteria.tweetsCountBetween, u.statusesCount);
      case ListsFilter => ok := CountFilter(criteria.tweetsCountBetween, u.statusesCount);
      case JoinedFilter => ok := JoinedCheck(criteria.joinedBetween, parseDate, u.createdAt);
      case VerifiedFilter => ok := VerifiedCheck(criteria.verified, u.verified);
    }

    /**
     * CheckUser: runs every registered filter (none stops the others) and
     * reports whether all of them passed, and which ones did, in order.
     */
    method CheckUser(u: User) returns (ok: bool, passed: seq<string>)
      ensures ok <==> Matches(criteria, parseDate, filters, u)
      ensures passed == PassedNames(criteria, parseDate, filters, u)
    {
      ok := true;
      passed := [];
      var i := 0;
      while i < |filters|
        invariant 0 <= i <= |filters|
        invariant ok <==> Matches(criteria, parseDate, filters[..i], u)
        invariant passed == PassedNames(criteria, parseDate, filters[..i], u)
      {
        var name, fmatch := RunFilter(filters[i], u);
        PassedNamesAppend(criteria, parseDate, filters[..i], filters[i], u);
        assert filters[..i + 1] == filters[..i] + [filters[i]];
        if fmatch {
          passed := passed + [name];
        } else {
          ok := false;
        }
        i := i + 1;
      }
      assert filters[..i] == filters;
    }

    /** CheckUserList: the users CheckUser accepts, in input order. */
    method CheckUserList(users: seq<User>) returns (result: seq<User>)
      ensures result == Seqs.Filter(users, Matcher(criteria, parseDate, filters))
    {
      result := [];
      var i := 0;
      while i < |users|
        invariant 0 <= i <= |users|
        invariant result == Seqs.Filter(users[..i], Matcher(criteria, parseDate, filters))
      {
        var ok, _ := CheckUser(users[i]);
        Seqs.FilterAppend(users[..i], users[i], Matcher(criteria, parseDate, filters));
        assert users[..i + 1] == users[..i] + [users[i]];
        if ok {
          result := result + [users[i]];
        }
        i := i + 1;
      }
      assert users[..i] == users;
    }
  }

  /** The tags of the filters that pass, in filter order (CheckUser's lstFunName). */
  function PassedNames(c: SearchCriteria, parse: string -> Option<Time>, filters: seq<Filter>, u: User): seq<string> {
    if filters == [] then []
    else
      PassedNames(c, parse, filters[..|filters| - 1], u)
      + (if Passes(c, parse, filters[|filters| - 1], u) then [FilterName(filters[|filters| - 1])] else [])
  }

  lemma PassedNamesAppend(c: SearchCriteria, parse: string -> Option<Time>, fs: seq<Filter>, f: Filter, u: User)
    ensures PassedNames(c, parse, fs + [f], u)
         == PassedNames(c, parse, fs, u) + (if Passes(c, parse, f, u) then [FilterName(f)] else [])
  {
    assert (fs + [f])[..|fs + [f]| - 1] == fs;
  }

  // ---------------------------------------------------------------- properties

  /** Among the first k checks, a filter is registered exactly when it is active. */
  lemma {:induction false} RegisteredUpToExactly(c: SearchCriteria, k: nat, f: Filter)
    requires k <= FilterCount
    ensures f in RegisteredUpTo(c, k) <==> Active(c, f) && Rank(f) < k
  {
    if k > 0 {
      RegisteredUpToExactly(c, k - 1, f);
    }
  }

  /** A filter is registered exactly when its part of the criteria is set. */
  lemma RegisteredExactly(c: SearchCriteria, f: Filter)
    ensures f in Registered(c) <==> Active(c, f)
  {
    RegisteredUpToExactly(c, FilterCount, f);
  }

  /** The first k checks register filters in check order, none twice. */
  lemma {:induction false} RegisteredUpToOrdered(c: SearchCriteria, k: nat)
    requires k <= FilterCount
    ensures forall i, j :: 0 <= i < j < |RegisteredUpTo(c, k)| ==>
      Rank(RegisteredUpTo(c, k)[i]) < Rank(RegisteredUpTo(c, k)[j])
  {
    if k > 0 {
      RegisteredUpToOrdered(c, k - 1);
      var prev := RegisteredUpTo(c, k - 1);
      forall f | f in prev ensures Rank(f) < k - 1 {
        RegisteredUpToExactly(c, k - 1, f);
      }
    }
  }

  /** Filters are registered in a fixed order, and no filter twice. */
  lemma RegisteredDistinct(c: SearchCriteria)
    ensures forall i, j :: 0 <= i < j < |Registered(c)| ==> Rank(Registered(c)[i]) < Rank(Registered(c)[j])
    ensures Seqs.Distinct(Registered(c))
  {
    RegisteredUpToOrdered(c, FilterCount);
  }

  /** With no filters registered every user matches. */
  lemma NoFiltersMatchAll(c: SearchCriteria, parse: string -> Option<Time>, u: User)
    ensures Matches(c, parse, [], u)
  {
  }

  /** Blank criteria register no filter at all. */
  lemma EmptyCriteriaRegisterNothing(c: SearchCriteria)
    requires |c.searchHandleContext| <= 1 && |c.searchNameContext| <= 1
    requires |c.searchBioContext| <= 1 && |c.searchLocationContext| <= 1
    requires !NumberActive(c.followersCountBetween) && !NumberActive(c.followingCountBetween)
    requires !NumberActive(c.likesCountBetween) && !NumberActive(c.tweetsCountBetween)
    requires !NumberActive(c.listsCountBetween) && !DateActive(c.joinedBetween) && !c.verified
    ensures Registered(c) == []
  {
    var r := Registered(c);
    if r != [] {
      RegisteredExactly(c, r[0]);
    }
  }

  /** The lists filter gives the tweets filter's verdict on every user. */
  lemma ListsFilterIsTweetsFilter(c: SearchCriteria, parse: string -> Option<Time>, u: User)
    ensures Passes(c, parse, ListsFilter, u) == Passes(c, parse, TweetsFilter, u)
  {
  }

  /** With both bounds set, a count passes exactly inside the open interval. */
  lemma CountBoundsExclusive(r: FromToNumber, count: int)
    requires r.from > 0 && r.to > 0
    ensures CountFilter(r, count) <==> r.from < count < r.to
    ensures !CountFilter(r, r.from as int) && !CountFilter(r, r.to as int)
  {
  }

  /** A keyword is matched literally: a leading '-' is part of the text searched for. */
  lemma NoNegativeKeywords(field: string, k: string)
    ensures KeywordMatch(field, ["-" + k]) <==> Contains(ToLower(field), ToLower("-" + k))
    ensures Contains(ToLower(field), ToLower(k)) && !Contains(ToLower(field), ToLower("-" + k)) ==> !KeywordMatch(field, ["-" + k])
  {
  }

  /** "-k" does not exclude the fields that contain "k": they simply fail to match it. */
  lemma NegativeKeywordNotExcluding()
    ensures KeywordMatch("k", ["k"]) && !KeywordMatch("k", ["-k"])
  {
    assert OccursAt(ToLower("k"), ToLower("k"), 0);
  }

  /** One keyword found in the field, at any position and in any letter case, is enough. */
  lemma {:induction false} KeywordFoundAnywhere(field: string, keywords: seq<string>, i: nat, j: nat)
    requires i < |keywords| && OccursAt(ToLower(field), ToLower(keywords[i]), j)
    ensures KeywordMatch(field, keywords)
  {
    assert Contains(ToLower(field), ToLower(keywords[i]));
    assert keywords[i] in keywords;
  }
}
