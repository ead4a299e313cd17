/**
 * The fields of the Twitter client library's user record that the core
 * reads. All counts are Go ints.
 */
module Anaconda {
  import opened Decimal

  datatype User = User(
    id: Int64,
    screenName: string,
    name: string,
    description: string,
    location: string,
    followersCount: int,
    friendsCount: int,
    favouritesCount: int,
    statusesCount: int,
    listedCount: int,
    createdAt: string,
    verified: bool)
}
