/**
 * The configuration shapes the core reads (config/configuration.go) and
 * the slice of Go's time.Time they need: an instant as Unix seconds plus
 * nanoseconds, whose zero value is 1 January of year 1, UTC.
 */
module Config {
  import opened Decimal
  import opened Wrappers

  /** Unix seconds of Go's zero time.Time (0001-01-01 00:00:00 UTC). */
  const ZeroUnix: int := -62135596800

  datatype Time = Time(unix: int, nsec: nat)

  const ZeroTime: Time := Time(ZeroUnix, 0)

  /** time.Time.IsZero. */
  predicate IsZero(t: Time) {
    t.unix == ZeroUnix && t.nsec == 0
  }

  /**
   * helpers.StringtoDate: parse with the Ruby layout, and fall back to the
   * zero time when parsing fails. time.Parse itself is the parameter.
   */
  function StringToDate(parse: string -> Option<Time>, date: string): (t: Time)
    ensures parse(date).None? ==> IsZero(t)
    ensures parse(date).Some? ==> t == parse(date).value
  {
    match parse(date)
    case Some(res) => res
    case None => ZeroTime
  }

  datatype FromToNumber = FromToNumber(from: Int64, to: Int64)

  datatype FromToDate = FromToDate(from: Time, to: Time)

  datatype SearchCriteria = SearchCriteria(
    searchHandleContext: seq<string>,
    searchNameContext: seq<string>,
    searchBioContext: seq<string>,
    searchLocationContext: seq<string>,
    followersCountBetween: FromToNumber,
    followingCountBetween: FromToNumber,
    likesCountBetween: FromToNumber,
    tweetsCountBetween: FromToNumber,
    listsCountBetween: FromToNumber,
    joinedBetween: FromToDate,
    verified: bool)

  /** The run flags of Config that the pipeline and the requests consult. */
  datatype Config = Config(
    searchUser: string,
    searchCriteria: SearchCriteria,
    following: bool,
    followers: bool,
    recursive: bool,
    recursiveSuccessUsersOnly: bool)
}
