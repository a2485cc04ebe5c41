/**
  The database calls the follow engine makes, as pure functions over the
  abstract store. Each takes the set of calls that fail; a failing call
  returns `DbError` (lookups) or `None` (writes) and changes nothing.
 */
module Repository {
  import opened Model

  /** Loads an account by id. */
  function GetAccount(s: Store, id: AccountId, faults: set<DbCall>): (r: Lookup<Account>)
    ensures r.Found? ==> id in s.accounts && r.value == s.accounts[id]
    ensures r.NoEntries? <==> GetAccountCall !in faults && id !in s.accounts
  {
    if GetAccountCall in faults then DbError
    else if id in s.accounts then Found(s.accounts[id])
    else NoEntries
  }

  /** Loads the follow request whose account and target account are `p`. */
  function GetRequest(s: Store, p: Pair, faults: set<DbCall>): (r: Lookup<FollowRequest>)
    ensures r.Found? ==> p in s.requests && r.value == s.requests[p]
    ensures GetRequestCall !in faults && p in s.requests ==> r.Found?
  {
    if GetRequestCall in faults then DbError
    else if p in s.requests then Found(s.requests[p])
    else NoEntries
  }

  /** Loads the follow whose account and target account are `p`. */
  function GetFollow(s: Store, p: Pair, faults: set<DbCall>): (r: Lookup<Follow>)
    ensures r.Found? ==> p in s.follows && r.value == s.follows[p]
    ensures GetFollowCall !in faults && p in s.follows ==> r.Found?
  {
    if GetFollowCall in faults then DbError
    else if p in s.follows then Found(s.follows[p])
    else NoEntries
  }

  /** Inserts a follow request. */
  function PutRequest(s: Store, fr: FollowRequest, faults: set<DbCall>): (r: Option<Store>)
    ensures r.None? <==> PutRequestCall in faults
    ensures r.Some? ==> fr.Key() in r.value.requests && r.value.requests[fr.Key()] == fr
    ensures r.Some? ==> r.value.requests - {fr.Key()} == s.requests - {fr.Key()}
    ensures r.Some? ==> r.value.accounts == s.accounts && r.value.blocks == s.blocks && r.value.follows == s.follows
  {
    if PutRequestCall in faults then None
    else Some(s.(requests := s.requests[fr.Key() := fr]))
  }

  /** The follow that accepting `fr` produces: same id, accounts, URI and flags. */
  function AcceptedFollow(fr: FollowRequest): Follow {
    Follow(fr.id, fr.accountId, fr.targetAccountId, fr.uri, fr.showReblogs, fr.notify)
  }

  /** Accepts the pending request from `origin` to `target`. The database's
      own implementation is not part of this model; this definition assumes
      it replaces the request by a follow that keeps the request's id, URI
      and flags, and fails when there is no such request. */
  function AcceptRequest(s: Store, origin: AccountId, target: AccountId, faults: set<DbCall>): (r: Option<Store>)
    ensures r.Some? ==> Pair(origin, target) in s.requests
    ensures r.Some? ==> Pair(origin, target) !in r.value.requests && Pair(origin, target) in r.value.follows
    ensures r.Some? ==> r.value.follows[Pair(origin, target)].uri == s.requests[Pair(origin, target)].uri
    ensures r.Some? ==> r.value.follows[Pair(origin, target)].id == s.requests[Pair(origin, target)].id
    ensures r.Some? ==> r.value.requests == s.requests - {Pair(origin, target)}
    ensures r.Some? ==> r.value.follows - {Pair(origin, target)} == s.follows - {Pair(origin, target)}
    ensures r.Some? ==> r.value.accounts == s.accounts && r.value.blocks == s.blocks
    ensures AcceptRequestCall !in faults && Pair(origin, target) in s.requests ==> r.Some?
  {
    var p := Pair(origin, target);
    if AcceptRequestCall in faults || p !in s.requests then None
    else Some(s.(requests := s.requests - {p}, follows := s.follows[p := AcceptedFollow(s.requests[p])]))
  }

  /** Deletes every follow request with the given id. */
  function DeleteRequest(s: Store, id: string, faults: set<DbCall>): (r: Option<Store>)
    ensures r.None? <==> DeleteRequestCall in faults
    ensures r.Some? ==> forall q :: q in r.value.requests <==> q in s.requests && s.requests[q].id != id
    ensures r.Some? ==> forall q :: q in r.value.requests ==> r.value.requests[q] == s.requests[q]
    ensures r.Some? ==> r.value.accounts == s.accounts && r.value.blocks == s.blocks && r.value.follows == s.follows
  {
    if DeleteRequestCall in faults then None
    else Some(s.(requests := map q | q in s.requests && s.requests[q].id != id :: s.requests[q]))
  }

  /** Deletes every follow with the given id. */
  function DeleteFollow(s: Store, id: string, faults: set<DbCall>): (r: Option<Store>)
    ensures r.None? <==> DeleteFollowCall in faults
    ensures r.Some? ==> forall q :: q in r.value.follows <==> q in s.follows && s.follows[q].id != id
    ensures r.Some? ==> forall q :: q in r.value.follows ==> r.value.follows[q] == s.follows[q]
    ensures r.Some? ==> r.value.accounts == s.accounts && r.value.blocks == s.blocks && r.value.requests == s.requests
  {
    if DeleteFollowCall in faults then None
    else Some(s.(follows := map q | q in s.follows && s.follows[q].id != id :: s.follows[q]))
  }
}
